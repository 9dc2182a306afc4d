/** The order in which the server merges chunk files: the comparator handed
    to `Array.prototype.sort`, which compares file names as strings, and the
    numeric order a merge of decimal chunk names evidently needs. */
module Ordering {
  import opened Common

  /** `a < b` on JavaScript strings: lexicographic by character, a proper
      prefix before any of its extensions. */
  predicate LexLess(a: string, b: string)
    decreases |a|
  {
    if a == [] then b != []
    else if b == [] then false
    else if a[0] != b[0] then a[0] < b[0]
    else LexLess(a[1..], b[1..])
  }

  lemma {:induction false} LexIrreflexive(a: string)
    ensures !LexLess(a, a)
    decreases |a|
  {
    if a != [] {
      LexIrreflexive(a[1..]);
    }
  }

  lemma {:induction false} LexTransitive(a: string, b: string, c: string)
    requires LexLess(a, b) && LexLess(b, c)
    ensures LexLess(a, c)
    decreases |a|
  {
    if a != [] && a[0] == b[0] && b[0] == c[0] {
      LexTransitive(a[1..], b[1..], c[1..]);
    }
  }

  lemma {:induction false} LexTotal(a: string, b: string)
    requires a != b
    ensures LexLess(a, b) || LexLess(b, a)
    decreases |a|
  {
    if a != [] && b != [] && a[0] == b[0] {
      assert a == [a[0]] + a[1..] && b == [b[0]] + b[1..];
      LexTotal(a[1..], b[1..]);
    }
  }

  /** The comparator `(a, b) => (a > b ? 1 : a < b ? -1 : 0)`. */
  function Compare(a: string, b: string): int {
    if LexLess(b, a) then 1 else if LexLess(a, b) then -1 else 0
  }

  /** The comparator is consistent: it answers 0 exactly on equal names and
      swapping its arguments flips its sign, so the sort it drives is
      well defined. */
  lemma CompareConsistent(a: string, b: string)
    ensures Compare(a, b) == 0 <==> a == b
    ensures Compare(a, b) == -Compare(b, a)
    ensures -1 <= Compare(a, b) <= 1
  {
    LexIrreflexive(a);
    if a != b {
      LexTotal(a, b);
      if LexLess(a, b) && LexLess(b, a) {
        LexTransitive(a, b, a);
      }
    }
  }

  /** Lexicographic is the comparator of the source; Numeric orders names by
      the number they spell, with ties broken lexicographically. */
  datatype Order = Lexicographic | Numeric

  predicate Less(o: Order, a: string, b: string) {
    match o
    case Lexicographic => Compare(a, b) < 0
    case Numeric =>
      DecimalValue(a) < DecimalValue(b) || (DecimalValue(a) == DecimalValue(b) && Compare(a, b) < 0)
  }

  lemma LexLessIsCompare(a: string, b: string)
    ensures Compare(a, b) < 0 <==> LexLess(a, b)
  {
    if LexLess(a, b) && LexLess(b, a) {
      LexTransitive(a, b, a);
      LexIrreflexive(a);
    }
  }

  /** Either order is a strict total order on strings. */
  lemma LessStrictTotal(o: Order, a: string, b: string, c: string)
    ensures !Less(o, a, a)
    ensures a != b ==> Less(o, a, b) || Less(o, b, a)
    ensures Less(o, a, b) ==> !Less(o, b, a)
    ensures Less(o, a, b) && Less(o, b, c) ==> Less(o, a, c)
  {
    LexLessIsCompare(a, a);
    LexLessIsCompare(a, b);
    LexLessIsCompare(b, a);
    LexLessIsCompare(b, c);
    LexLessIsCompare(a, c);
    LexIrreflexive(a);
    if a != b {
      LexTotal(a, b);
    }
    if LexLess(a, b) && LexLess(b, a) {
      LexTransitive(a, b, a);
    }
    if LexLess(a, b) && LexLess(b, c) {
      LexTransitive(a, b, c);
    }
  }

  /** "10" is merged before "2" by the source's comparator, after it by the
      numeric order. */
  lemma TenBeforeTwo()
    ensures Less(Lexicographic, "10", "2")
    ensures Less(Numeric, "2", "10")
    ensures !Less(Numeric, "10", "2")
  {
    assert LexLess("10", "2");
    LexLessIsCompare("10", "2");
    assert DecimalValue("1") == 1;
    assert "10"[..1] == "1";
    assert DecimalValue("10") == 10;
  }

  predicate Distinct(s: seq<string>) {
    forall i, j | 0 <= i < j < |s| :: s[i] != s[j]
  }

  /** `s` lists the names of `entries`, each once: what `readdir` returns. */
  ghost predicate IsListing(s: seq<string>, entries: set<string>) {
    Distinct(s) && (forall x :: x in s <==> x in entries)
  }

  /** No later element is smaller than an earlier one. */
  predicate Ascending(s: seq<string>, o: Order) {
    forall i, j | 0 <= i < j < |s| :: !Less(o, s[j], s[i])
  }

  predicate StrictlyAscending(s: seq<string>, o: Order) {
    forall i, j | 0 <= i < j < |s| :: Less(o, s[i], s[j])
  }

  /** Inserts `x` before the first element not smaller than it. */
  function Insert(x: string, s: seq<string>, o: Order): (r: seq<string>)
    ensures multiset(r) == multiset(s) + multiset{x}
    ensures |r| == |s| + 1
    decreases |s|
  {
    if s == [] then [x]
    else if Less(o, s[0], x) then
      assert s == [s[0]] + s[1..];
      [s[0]] + Insert(x, s[1..], o)
    else [x] + s
  }

  lemma ConsAscending(a: string, t: seq<string>, o: Order)
    requires Ascending(t, o)
    requires forall k | 0 <= k < |t| :: !Less(o, t[k], a)
    ensures Ascending([a] + t, o)
  {
    var r := [a] + t;
    forall i, j | 0 <= i < j < |r| ensures !Less(o, r[j], r[i]) {
      assert r[j] == t[j - 1];
      if i > 0 {
        assert r[i] == t[i - 1];
      }
    }
  }

  lemma ConsStrict(a: string, t: seq<string>, o: Order)
    requires StrictlyAscending(t, o)
    requires forall k | 0 <= k < |t| :: Less(o, a, t[k])
    ensures StrictlyAscending([a] + t, o)
  {
    var r := [a] + t;
    forall i, j | 0 <= i < j < |r| ensures Less(o, r[i], r[j]) {
      assert r[j] == t[j - 1];
      if i > 0 {
        assert r[i] == t[i - 1];
      }
    }
  }

  lemma AscendingTail(s: seq<string>, o: Order)
    requires s != []
    ensures Ascending(s, o) ==> Ascending(s[1..], o)
    ensures StrictlyAscending(s, o) ==> StrictlyAscending(s[1..], o)
  {
    var s' := s[1..];
    assert forall i | 0 <= i < |s'| :: s'[i] == s[i + 1];
  }

  /** What `Insert` returns holds `x` and the old names and nothing else. */
  lemma InsertMembers(x: string, s: seq<string>, o: Order)
    ensures forall y :: y in Insert(x, s, o) <==> y == x || y in s
  {
    var r := Insert(x, s, o);
    assert forall y :: y in r <==> y in multiset(r);
    assert forall y :: y in s <==> y in multiset(s);
  }

  /** Inserting into an ascending sequence keeps it ascending. */
  lemma {:induction false} InsertAscending(x: string, s: seq<string>, o: Order)
    requires Ascending(s, o)
    ensures Ascending(Insert(x, s, o), o)
    decreases |s|
  {
    if s != [] {
      var s' := s[1..];
      AscendingTail(s, o);
      LessStrictTotal(o, s[0], x, x);
      if Less(o, s[0], x) {
        var t := Insert(x, s', o);
        InsertAscending(x, s', o);
        InsertMembers(x, s', o);
        forall k | 0 <= k < |t| ensures !Less(o, t[k], s[0]) {
          if t[k] != x {
            assert t[k] in t;
            var m :| 0 <= m < |s'| && s'[m] == t[k];
            assert s[m + 1] == t[k];
          }
        }
        ConsAscending(s[0], t, o);
      } else {
        forall k | 0 <= k < |s| ensures !Less(o, s[k], x) {
          LessStrictTotal(o, s[k], s[0], x);
          LessStrictTotal(o, s[k], x, s[0]);
        }
        ConsAscending(x, s, o);
      }
    }
  }

  /** Inserting a new name into a strictly ascending sequence keeps it
      strictly ascending. */
  lemma {:induction false} InsertStrict(x: string, s: seq<string>, o: Order)
    requires StrictlyAscending(s, o) && x !in s
    ensures StrictlyAscending(Insert(x, s, o), o)
    decreases |s|
  {
    if s != [] {
      var s' := s[1..];
      AscendingTail(s, o);
      if Less(o, s[0], x) {
        var t := Insert(x, s', o);
        InsertStrict(x, s', o);
        InsertMembers(x, s', o);
        forall k | 0 <= k < |t| ensures Less(o, s[0], t[k]) {
          if t[k] != x {
            assert t[k] in t;
            var m :| 0 <= m < |s'| && s'[m] == t[k];
            assert s[m + 1] == t[k];
          }
        }
        ConsStrict(s[0], t, o);
      } else {
        LessStrictTotal(o, s[0], x, x);
        forall k | 0 <= k < |s| ensures Less(o, x, s[k]) {
          LessStrictTotal(o, x, s[0], s[k]);
        }
        ConsStrict(x, s, o);
      }
    }
  }

  /** `files.sort(comparator)`: a permutation of the input in ascending order,
      strictly ascending when the names are distinct (as directory entries
      are). */
  function Sort(s: seq<string>, o: Order): (r: seq<string>)
    ensures multiset(r) == multiset(s)
    ensures Ascending(r, o)
    ensures Distinct(s) ==> StrictlyAscending(r, o)
    decreases |s|
  {
    if s == [] then []
    else
      var t := Sort(s[1..], o);
      assert s == [s[0]] + s[1..];
      assert Distinct(s) ==> Distinct(s[1..]) && s[0] !in multiset(s[1..]);
      assert s[0] in t <==> s[0] in multiset(t);
      InsertAscending(s[0], t, o);
      assert Distinct(s) ==> StrictlyAscending(Insert(s[0], t, o), o) by {
        if Distinct(s) {
          InsertStrict(s[0], t, o);
        }
      }
      Insert(s[0], t, o)
  }

  /** A strictly ascending sequence is distinct. */
  lemma StrictIsDistinct(s: seq<string>, o: Order)
    requires StrictlyAscending(s, o)
    ensures Distinct(s)
  {
    forall i, j | 0 <= i < j < |s| ensures s[i] != s[j] {
      LessStrictTotal(o, s[i], s[i], s[i]);
    }
  }

  /** Dropping the first name of a listing lists the other names. */
  lemma ListingTail(s: seq<string>, entries: set<string>)
    requires IsListing(s, entries) && s != []
    ensures IsListing(s[1..], entries - {s[0]})
  {
    forall x ensures x in s[1..] <==> x in entries - {s[0]} {
      if x in s[1..] {
        var i :| 1 <= i < |s| && s[i] == x;
      }
      if x in entries - {s[0]} {
        assert x in s;
        var i :| 0 <= i < |s| && s[i] == x;
        assert s[1..][i - 1] == x;
      }
    }
  }

  /** A listing has one element per name. */
  lemma {:induction false} ListingLength(s: seq<string>, entries: set<string>)
    requires IsListing(s, entries)
    ensures |s| == |entries|
    decreases |s|
  {
    if s == [] {
      assert forall x :: x !in entries;
      assert entries == {};
    } else {
      ListingTail(s, entries);
      ListingLength(s[1..], entries - {s[0]});
    }
  }

  /** There is exactly one strictly ascending listing of a set of names, so
      the merge order does not depend on the order `readdir` returned nor on
      the sorting algorithm. */
  lemma {:induction false} SortedListingUnique(a: seq<string>, b: seq<string>, entries: set<string>, o: Order)
    requires IsListing(a, entries) && IsListing(b, entries)
    requires StrictlyAscending(a, o) && StrictlyAscending(b, o)
    ensures a == b
    decreases |a|
  {
    ListingLength(a, entries);
    ListingLength(b, entries);
    if a != [] {
      if a[0] != b[0] {
        assert b[0] in a;
        var i :| 0 <= i < |a| && a[i] == b[0];
        assert a[0] in b;
        var j :| 0 <= j < |b| && b[j] == a[0];
        LessStrictTotal(o, a[0], b[0], a[0]);
        assert false;
      }
      AscendingTail(a, o);
      AscendingTail(b, o);
      ListingTail(a, entries);
      ListingTail(b, entries);
      SortedListingUnique(a[1..], b[1..], entries - {a[0]}, o);
      assert a == [a[0]] + a[1..] && b == [b[0]] + b[1..];
    }
  }

  /** Some listing of a finite set of names. */
  ghost function SetToSeq(entries: set<string>): (s: seq<string>)
    ensures IsListing(s, entries)
    decreases |entries|
  {
    if entries == {} then []
    else
      var x :| x in entries;
      var t := SetToSeq(entries - {x});
      assert forall i | 0 <= i < |t| :: t[i] != x;
      [x] + t
  }

  /** The one strictly ascending listing of `entries`
      (`SortedListingUnique`); `Sort` shows that there is one. */
  ghost function SortedListing(entries: set<string>, o: Order): (s: seq<string>)
    ensures IsListing(s, entries) && StrictlyAscending(s, o)
    ensures forall k | 0 <= k < |s| :: s[k] in entries
  {
    assert exists s :: IsListing(s, entries) && StrictlyAscending(s, o) by {
      var listing := SetToSeq(entries);
      var r := Sort(listing, o);
      assert forall x :: x in r <==> x in multiset(r);
      assert forall x :: x in listing <==> x in multiset(listing);
      StrictIsDistinct(r, o);
      assert IsListing(r, entries) && StrictlyAscending(r, o);
    }
    var s :| IsListing(s, entries) && StrictlyAscending(s, o);
    s
  }

  /** Sorting any listing of `entries` gives the sorted listing. */
  lemma SortListing(files: seq<string>, entries: set<string>, o: Order)
    requires IsListing(files, entries)
    ensures Sort(files, o) == SortedListing(entries, o)
  {
    var r := Sort(files, o);
    assert forall x :: x in r <==> x in multiset(r);
    assert forall x :: x in files <==> x in multiset(files);
    StrictIsDistinct(r, o);
    SortedListingUnique(r, SortedListing(entries, o), entries, o);
  }
}
