/** Base64 for URLs without padding: section 5 of RFC 4648, as Go decodes it. */
module Base64 {
  import opened Options

  datatype Error = CorruptInput

  /** A Go string is a sequence of bytes. */
  predicate Bytes(s: string) {
    forall i | 0 <= i < |s| :: s[i] as int < 256
  }

  predicate Digits(s: string) {
    forall i | 0 <= i < |s| :: Value(s[i]).Some?
  }

  function Digit(n: int): char
    requires 0 <= n < 64
  {
    if n < 26 then 'A' + n as char
    else if n < 52 then 'a' + (n - 26) as char
    else if n < 62 then '0' + (n - 52) as char
    else if n == 62 then '-' else '_'
  }

  function Value(c: char): (n: Option<int>)
    ensures n.Some? ==> 0 <= n.value < 64
  {
    if 'A' <= c <= 'Z' then Some(c as int - 'A' as int)
    else if 'a' <= c <= 'z' then Some(c as int - 'a' as int + 26)
    else if '0' <= c <= '9' then Some(c as int - '0' as int + 52)
    else if c == '-' then Some(62)
    else if c == '_' then Some(63)
    else None
  }

  // Three bytes a, b, c are four digits; four digits p, q, r, t are three bytes.

  function Digit0(a: int): (n: int)
    requires 0 <= a < 256
    ensures 0 <= n < 64
  {
    a / 4
  }

  function Digit1(a: int, b: int): (n: int)
    requires 0 <= a < 256 && 0 <= b < 256
    ensures 0 <= n < 64
  {
    a % 4 * 16 + b / 16
  }

  function Digit2(b: int, c: int): (n: int)
    requires 0 <= b < 256 && 0 <= c < 256
    ensures 0 <= n < 64
  {
    b % 16 * 4 + c / 64
  }

  function Digit3(c: int): (n: int)
    requires 0 <= c < 256
    ensures 0 <= n < 64
  {
    c % 64
  }

  function Byte0(p: int, q: int): (n: int)
    requires 0 <= p < 64 && 0 <= q < 64
    ensures 0 <= n < 256
  {
    p * 4 + q / 16
  }

  function Byte1(q: int, r: int): (n: int)
    requires 0 <= q < 64 && 0 <= r < 64
    ensures 0 <= n < 256
  {
    q % 16 * 16 + r / 4
  }

  function Byte2(r: int, t: int): (n: int)
    requires 0 <= r < 64 && 0 <= t < 64
    ensures 0 <= n < 256
  {
    r % 4 * 64 + t
  }

  function EncodeString(s: string): string
    requires Bytes(s)
  {
    if s == "" then ""
    else
      var a := s[0] as int;
      if |s| == 1 then [Digit(Digit0(a)), Digit(Digit1(a, 0))]
      else
        var b := s[1] as int;
        if |s| == 2 then [Digit(Digit0(a)), Digit(Digit1(a, b)), Digit(Digit2(b, 0))]
        else
          var c := s[2] as int;
          [Digit(Digit0(a)), Digit(Digit1(a, b)), Digit(Digit2(b, c)), Digit(Digit3(c))] + EncodeString(s[3..])
  }

  /** The decoder steps over line breaks wherever they are. */
  function WithoutLineBreaks(s: string): string {
    if s == "" then ""
    else if s[0] == '\r' || s[0] == '\n' then WithoutLineBreaks(s[1..])
    else [s[0]] + WithoutLineBreaks(s[1..])
  }

  /** Groups of four digits; left-over low bits of a short last group are not looked at. */
  function DecodeGroups(s: string): Result<string, Error> {
    if s == "" then Ok("")
    else if |s| == 1 then Err(CorruptInput)
    else if Value(s[0]).None? || Value(s[1]).None? then Err(CorruptInput)
    else
      var a, b := Value(s[0]).value, Value(s[1]).value;
      if |s| == 2 then Ok([Byte0(a, b) as char])
      else if Value(s[2]).None? then Err(CorruptInput)
      else
        var c := Value(s[2]).value;
        if |s| == 3 then Ok([Byte0(a, b) as char, Byte1(b, c) as char])
        else if Value(s[3]).None? then Err(CorruptInput)
        else
          var d := Value(s[3]).value;
          var rest := DecodeGroups(s[4..]);
          if rest.Err? then rest
          else Ok([Byte0(a, b) as char, Byte1(b, c) as char, Byte2(c, d) as char] + rest.value)
  }

  function DecodeString(s: string): Result<string, Error> {
    DecodeGroups(WithoutLineBreaks(s))
  }

  lemma DigitIsValue(n: int)
    requires 0 <= n < 64
    ensures Value(Digit(n)) == Some(n)
  {
  }

  lemma {:induction false} EncodeGivesDigits(s: string)
    requires Bytes(s)
    ensures Digits(EncodeString(s))
  {
    if |s| > 2 {
      EncodeGivesDigits(s[3..]);
    }
  }

  lemma {:induction false} DigitsHaveNoLineBreaks(s: string)
    requires Digits(s)
    ensures WithoutLineBreaks(s) == s
  {
    if s != "" {
      assert Value(s[0]).Some?;
      DigitsHaveNoLineBreaks(s[1..]);
    }
  }

  /** Three bytes as four digits and back. */
  lemma GroupRoundTrip(a: int, b: int, c: int)
    requires 0 <= a < 256 && 0 <= b < 256 && 0 <= c < 256
    ensures Byte0(Digit0(a), Digit1(a, b)) == a
    ensures Byte1(Digit1(a, b), Digit2(b, c)) == b
    ensures Byte2(Digit2(b, c), Digit3(c)) == c
  {
  }

  lemma {:induction false} GroupsRoundTrip(s: string)
    requires Bytes(s)
    ensures DecodeGroups(EncodeString(s)) == Ok(s)
  {
    if |s| == 1 {
      ShortRoundTrip1(s);
    } else if |s| == 2 {
      ShortRoundTrip2(s);
    } else if |s| > 2 {
      GroupsRoundTrip(s[3..]);
      LongRoundTrip(s);
    }
  }

  lemma ShortRoundTrip1(s: string)
    requires Bytes(s) && |s| == 1
    ensures DecodeGroups(EncodeString(s)) == Ok(s)
  {
    hide Digit, Value, Digit0, Digit1, Digit2, Digit3, Byte0, Byte1, Byte2;
    var a := s[0] as int;
    GroupRoundTrip(a, 0, 0);
    DigitIsValue(Digit0(a));
    DigitIsValue(Digit1(a, 0));
    assert s == [a as char];
  }

  lemma ShortRoundTrip2(s: string)
    requires Bytes(s) && |s| == 2
    ensures DecodeGroups(EncodeString(s)) == Ok(s)
  {
    hide Digit, Value, Digit0, Digit1, Digit2, Digit3, Byte0, Byte1, Byte2;
    var a, b := s[0] as int, s[1] as int;
    GroupRoundTrip(a, b, 0);
    DigitIsValue(Digit0(a));
    DigitIsValue(Digit1(a, b));
    DigitIsValue(Digit2(b, 0));
    assert s == [a as char, b as char];
  }

  lemma LongRoundTrip(s: string)
    requires Bytes(s) && |s| > 2 && DecodeGroups(EncodeString(s[3..])) == Ok(s[3..])
    ensures DecodeGroups(EncodeString(s)) == Ok(s)
  {
    hide Digit, Value, Digit0, Digit1, Digit2, Digit3, Byte0, Byte1, Byte2;
    var a, b, c := s[0] as int, s[1] as int, s[2] as int;
    GroupRoundTrip(a, b, c);
    DigitIsValue(Digit0(a));
    DigitIsValue(Digit1(a, b));
    DigitIsValue(Digit2(b, c));
    DigitIsValue(Digit3(c));
    assert EncodeString(s)[4..] == EncodeString(s[3..]);
    assert s == [a as char, b as char, c as char] + s[3..];
  }

  /** Decoding undoes encoding, for every byte string. */
  lemma RoundTrip(s: string)
    requires Bytes(s)
    ensures DecodeString(EncodeString(s)) == Ok(s)
  {
    EncodeGivesDigits(s);
    DigitsHaveNoLineBreaks(EncodeString(s));
    GroupsRoundTrip(s);
  }

  /** Different strings have different encodings. */
  lemma EncodeIsInjective(s: string, t: string)
    requires Bytes(s) && Bytes(t) && EncodeString(s) == EncodeString(t)
    ensures s == t
  {
    RoundTrip(s);
    RoundTrip(t);
  }
}
