/**
 Indexes over the table of live allocations: for each value of some property, the keys of the
 allocations that have it. Blank values are not indexed and no empty set is kept.
 */
module AllocationIndex {
  type Key = string

  datatype Allocation = Allocation(
    username: string, sessionIP: string,
    source: string, destination: string, protocol: string,
    operation: string)

  type Table = map<Key, Allocation>

  type Index = map<string, set<Key>>

  /** What an index is by. */
  datatype Property = User | SessionIP
  {
    function Of(a: Allocation): string {
      if User? then a.username else a.sessionIP
    }
  }

  /** What a scan of the table gives. */
  function Scan(table: Table, prop: Property): Index {
    map value | value in Values(table, prop) :: KeysWith(table, prop, value)
  }

  function Values(table: Table, prop: Property): set<string> {
    set key | key in table && prop.Of(table[key]) != "" :: prop.Of(table[key])
  }

  function KeysWith(table: Table, prop: Property, value: string): set<Key> {
    set key | key in table && prop.Of(table[key]) == value
  }

  /** The index agrees with the table, entry by entry. */
  ghost predicate Agrees(index: Index, table: Table, prop: Property) {
    && (forall key | key in table && prop.Of(table[key]) != "" ::
          prop.Of(table[key]) in index && key in index[prop.Of(table[key])])
    && (forall value | value in index :: value != "" && index[value] != {})
    && (forall value, key | value in index && key in index[value] :: key in table && prop.Of(table[key]) == value)
  }

  lemma AgreesIsScan(index: Index, table: Table, prop: Property)
    ensures Agrees(index, table, prop) <==> index == Scan(table, prop)
  {
    var scan := Scan(table, prop);
    if Agrees(index, table, prop) {
      forall value | value in index ensures value in scan && index[value] == scan[value] {
        var key :| key in index[value];
        assert prop.Of(table[key]) == value;
        assert index[value] == KeysWith(table, prop, value);
      }
      assert index.Keys == scan.Keys;
    }
    if index == scan {
      forall value | value in index ensures value != "" && index[value] != {} {
        var key :| key in table && prop.Of(table[key]) != "" && prop.Of(table[key]) == value;
        assert key in KeysWith(table, prop, value);
      }
    }
  }

  lemma IndexedIffUsed(index: Index, table: Table, prop: Property, value: string)
    requires Agrees(index, table, prop)
    ensures value in index <==> value != "" && KeysWith(table, prop, value) != {}
  {
    if value in index {
      var key :| key in index[value];
      assert key in KeysWith(table, prop, value);
    } else if KeysWith(table, prop, value) != {} {
      var key :| key in KeysWith(table, prop, value);
    }
  }

  /** Looking a value up is a scan for it. */
  lemma LookupIsScan(index: Index, table: Table, prop: Property, value: string)
    requires Agrees(index, table, prop) && value != ""
    ensures (if value in index then index[value] else {}) == KeysWith(table, prop, value)
  {
    IndexedIffUsed(index, table, prop, value);
    forall key | key in KeysWith(table, prop, value) ensures value in index && key in index[value] {
    }
  }

  function Add(index: Index, value: string, key: Key): Index {
    if value == "" then index
    else index[value := (if value in index then index[value] else {}) + {key}]
  }

  function Remove(index: Index, value: string, key: Key): Index {
    if value !in index then index
    else if index[value] - {key} == {} then index - {value}
    else index[value := index[value] - {key}]
  }

  lemma RemoveAgrees(index: Index, table: Table, prop: Property, key: Key)
    requires Agrees(index, table, prop) && key in table
    ensures Agrees(Remove(index, prop.Of(table[key]), key), table - {key}, prop)
  {
    var value := prop.Of(table[key]);
    var index' := Remove(index, value, key);
    forall v, k | v in index' && k in index'[v] ensures k in table - {key} && prop.Of(table[k]) == v {
      assert v in index && k in index[v];
    }
    forall k | k in table - {key} && prop.Of(table[k]) != ""
        ensures prop.Of(table[k]) in index' && k in index'[prop.Of(table[k])] {
      assert k in index[prop.Of(table[k])];
    }
  }

  lemma AddAgrees(index: Index, table: Table, prop: Property, key: Key, a: Allocation)
    requires Agrees(index, table, prop) && key !in table
    ensures Agrees(Add(index, prop.Of(a), key), table[key := a], prop)
  {
    var index' := Add(index, prop.Of(a), key);
    forall v, k | v in index' && k in index'[v] ensures k in table[key := a] && prop.Of(table[key := a][k]) == v {
      assert k != key ==> v in index && k in index[v];
    }
  }

  /** Changing an allocation's value: out of one set, if it was in one, and into the other. */
  lemma MoveAgrees(index: Index, table: Table, prop: Property, key: Key, a: Allocation)
    requires Agrees(index, table, prop) && key in table
    ensures var was, now := prop.Of(table[key]), prop.Of(a);
            var removed := if was != "" && was != now then Remove(index, was, key) else index;
            Agrees(Add(removed, now, key), table[key := a], prop)
  {
    var was, now := prop.Of(table[key]), prop.Of(a);
    if was == now {
      var index' := Add(index, now, key);
      if now != "" {
        assert key in index[now] && index[now] + {key} == index[now];
        assert index' == index;
      }
    } else {
      RemoveAgrees(index, table, prop, key);
      assert was == "" ==> Remove(index, was, key) == index;
      AddAgrees(Remove(index, was, key), table - {key}, prop, key, a);
      assert (table - {key})[key := a] == table[key := a];
    }
  }

  /** The sizes of the sets of an index, kept apart from it. */
  ghost predicate Counts(counts: map<string, int>, index: Index) {
    && counts.Keys == index.Keys
    && (forall value | value in index :: counts[value] == |index[value]|)
  }

  lemma RemoveCounts(counts: map<string, int>, index: Index, value: string, key: Key)
    requires Counts(counts, index) && value in index && key in index[value]
    ensures counts[value] > 1 <==> value in Remove(index, value, key)
    ensures Counts(if counts[value] > 1 then counts[value := counts[value] - 1] else counts - {value},
                   Remove(index, value, key))
  {
    var rest := index[value] - {key};
    assert |rest| == |index[value]| - 1;
    assert |rest| == 0 <==> rest == {};
  }

  lemma AddCounts(counts: map<string, int>, index: Index, value: string, key: Key)
    requires Counts(counts, index) && value != "" && (value in index ==> key !in index[value])
    ensures Counts(counts[value := (if value in counts then counts[value] else 0) + 1], Add(index, value, key))
  {
  }
}
