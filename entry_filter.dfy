/** FilterEntriesByPrefix: the entries of a string list that start with a prefix. */
module EntryFilter {

  /** Keeps, in their original order, the entries that start with `prefix`. */
  function FilterEntriesByPrefix(prefix: string, entries: seq<string>): (r: seq<string>)
    ensures |r| <= |entries|
    ensures forall e :: e in r <==> e in entries && prefix <= e
  {
    if entries == [] then []
    else
      var rest := FilterEntriesByPrefix(prefix, entries[1..]);
      if prefix <= entries[0] then [entries[0]] + rest else rest
  }

  /** Each entry keeps its number of occurrences when it has the prefix and is dropped otherwise. */
  lemma {:induction false} FilterKeepsMultiplicity(prefix: string, entries: seq<string>, e: string)
    ensures multiset(FilterEntriesByPrefix(prefix, entries))[e] ==
              if prefix <= e then multiset(entries)[e] else 0
  {
    if entries != [] {
      FilterKeepsMultiplicity(prefix, entries[1..], e);
      assert entries == [entries[0]] + entries[1..];
    }
  }

  /** Filtering a concatenation filters each part and keeps their order. */
  lemma {:induction false} FilterAppend(prefix: string, a: seq<string>, b: seq<string>)
    ensures FilterEntriesByPrefix(prefix, a + b) ==
              FilterEntriesByPrefix(prefix, a) + FilterEntriesByPrefix(prefix, b)
  {
    if a != [] {
      assert (a + b)[1..] == a[1..] + b;
      FilterAppend(prefix, a[1..], b);
    } else {
      assert a + b == b;
    }
  }

  /** A list in which every entry has the prefix comes back whole. */
  lemma {:induction false} FilterAllMatch(prefix: string, entries: seq<string>)
    requires forall i :: 0 <= i < |entries| ==> prefix <= entries[i]
    ensures FilterEntriesByPrefix(prefix, entries) == entries
  {
    if entries != [] {
      FilterAllMatch(prefix, entries[1..]);
    }
  }

  /** A list in which no entry has the prefix gives the empty list. */
  lemma {:induction false} FilterNoneMatch(prefix: string, entries: seq<string>)
    requires forall i :: 0 <= i < |entries| ==> !(prefix <= entries[i])
    ensures FilterEntriesByPrefix(prefix, entries) == []
  {
    if entries != [] {
      FilterNoneMatch(prefix, entries[1..]);
    }
  }

  /** Filtering twice is filtering once. */
  lemma FilterIdempotent(prefix: string, entries: seq<string>)
    ensures var r := FilterEntriesByPrefix(prefix, entries);
            FilterEntriesByPrefix(prefix, r) == r
  {
    var r := FilterEntriesByPrefix(prefix, entries);
    assert forall i :: 0 <= i < |r| ==> r[i] in r;
    FilterAllMatch(prefix, r);
  }

  /** The documented cases, with prefix "role". */
  lemma Examples()
    ensures FilterEntriesByPrefix("role", ["foo", "bar", "role-foo", "role-bar"]) == ["role-foo", "role-bar"]
    ensures FilterEntriesByPrefix("role", ["role-foo", "role-bar"]) == ["role-foo", "role-bar"]
    ensures FilterEntriesByPrefix("role", ["foo", "bar"]) == []
  {
    FilterAllMatch("role", ["role-foo", "role-bar"]);
    FilterNoneMatch("role", ["foo", "bar"]);
    FilterAppend("role", ["foo", "bar"], ["role-foo", "role-bar"]);
    assert ["foo", "bar", "role-foo", "role-bar"] == ["foo", "bar"] + ["role-foo", "role-bar"];
  }
}
