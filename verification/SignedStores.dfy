/** What is known of each key: nothing, that it has no value, or its value. */
module SignedStores {
  import opened Ordered
  import opened Text

  datatype Slot<V> = Miss | Hit(value: V)

  datatype LookupResult<V> = Unknown | Negative | Positive(value: V)

  function LookupIn<V>(entries: map<string, Slot<V>>, key: string): LookupResult<V> {
    if key !in entries then Unknown
    else
      match entries[key]
      case Hit(value) => Positive(value)
      case Miss => Negative
  }

  function PositiveKeys<V>(entries: map<string, Slot<V>>): set<string> {
    set key | key in entries && entries[key].Hit?
  }

  /** visited lists each key that has a value, once and with that value, ascending. */
  ghost predicate VisitsPositives<V>(visited: seq<(string, V)>, entries: map<string, Slot<V>>) {
    && TotalOrder(LexLe)
    && (forall i | 0 <= i < |visited| :: LookupIn(entries, visited[i].0) == Positive(visited[i].1))
    && seq(|visited|, i requires 0 <= i < |visited| => visited[i].0) == Ascending(PositiveKeys(entries), LexLe)
  }

  class SignedStore<V> {
    var entries: map<string, Slot<V>>

    constructor ()
      ensures entries == map[]
    {
      entries := map[];
    }

    method Lookup(key: string) returns (r: LookupResult<V>)
      ensures r.Unknown? <==> key !in entries
      ensures r.Negative? <==> key in entries && entries[key].Miss?
      ensures forall value :: r == Positive(value) <==> key in entries && entries[key] == Hit(value)
    {
      r := LookupIn(entries, key);
    }

    /** Afterwards the key has this value, whatever was known of it. */
    method Put(key: string, value: V)
      modifies this
      ensures entries == old(entries)[key := Hit(value)]
    {
      entries := entries[key := Hit(value)];
    }

    /** Afterwards the key has no value, whatever was known of it. */
    method PutMiss(key: string)
      modifies this
      ensures entries == old(entries)[key := Miss]
    {
      entries := entries[key := Miss];
    }

    /** Each key that has a value comes once, in ascending order, with its value. */
    method ForEachPositive() returns (visited: seq<(string, V)>)
      ensures VisitsPositives(visited, entries)
    {
      LexIsTotalOrder();
      visited := [];
      var rest := PositiveKeys(entries);
      ghost var done: seq<string> := [];
      while rest != {}
        invariant Visiting(done, rest, PositiveKeys(entries), LexLe)
        invariant |visited| == |done|
        invariant forall i | 0 <= i < |done| ::
                    done[i] == visited[i].0 && LookupIn(entries, visited[i].0) == Positive(visited[i].1)
        decreases |rest|
      {
        ghost var least := LeastExists(rest, LexLe);
        var key :| key in rest && forall k | k in rest :: LexLe(key, k);
        VisitNext(done, key, rest, PositiveKeys(entries), LexLe);
        visited := visited + [(key, entries[key].value)];
        rest, done := rest - {key}, done + [key];
      }
      VisitEnds(done, PositiveKeys(entries), LexLe);
    }
  }
}
