/**
  The per-user report: count the records of each `UserID` in a map, turn
  the map into a list of (uuid, count) entries, and sort that list by count
  ascending, then by uuid ascending. The empty `UserID` is a key like any
  other.
 */
module Summary {
  import opened Strings
  import opened Identity

  /** The anonymous `user` struct of the report: a UserID and how often it occurs. */
  datatype UserCount = UserCount(uuid: string, count: nat)

  /** What a successful run leaves: the records printed as JSON, the summed `took`, and the per-user summary. */
  datatype Report = Report(ids: seq<AmplitudeID>, took: int, summary: seq<UserCount>)

  /** How many records carry the UserID `u`. */
  function Occurrences(ids: seq<AmplitudeID>, u: string): nat
  {
    if |ids| == 0 then 0
    else Occurrences(ids[..|ids| - 1], u) + (if ids[|ids| - 1].userId == u then 1 else 0)
  }

  /** The distinct UserIDs of the records. */
  function UserIDs(ids: seq<AmplitudeID>): set<string>
  {
    set x | x in ids :: x.userId
  }

  /** The set of uuids of a list of entries. */
  function Keys(r: seq<UserCount>): set<string>
  {
    set e | e in r :: e.uuid
  }

  /** The sort's comparison: fewer occurrences first, equal counts by uuid. */
  predicate Before(x: UserCount, y: UserCount)
  {
    x.count < y.count || (x.count == y.count && Less(x.uuid, y.uuid))
  }

  predicate StrictlySorted(s: seq<UserCount>)
  {
    forall i, j :: 0 <= i < j < |s| ==> Before(s[i], s[j])
  }

  predicate Distinct(s: seq<UserCount>)
  {
    forall i, j :: 0 <= i < j < |s| ==> s[i] != s[j]
  }

  predicate KeysUnique(s: seq<UserCount>)
  {
    forall i, j :: 0 <= i < j < |s| ==> s[i].uuid != s[j].uuid
  }

  function SumCounts(s: seq<UserCount>): int
  {
    if |s| == 0 then 0 else s[0].count + SumCounts(s[1..])
  }

  /**
    What the report of `ids` is: ordered by the comparison with no ties,
    one entry for every distinct UserID and none for anything else, each
    with the number of records carrying it.
   */
  predicate IsSummaryOf(r: seq<UserCount>, ids: seq<AmplitudeID>)
  {
    && StrictlySorted(r)
    && (forall e :: e in r ==> e.count == Occurrences(ids, e.uuid))
    && Keys(r) == UserIDs(ids)
  }

  lemma BeforeIsStrictTotal(x: UserCount, y: UserCount, z: UserCount)
    ensures !Before(x, x)
    ensures !(Before(x, y) && Before(y, x))
    ensures x != y ==> Before(x, y) || Before(y, x)
    ensures Before(x, y) && Before(y, z) ==> Before(x, z)
  {
    LessIrreflexive(x.uuid);
    LessTotal(x.uuid, y.uuid);
    if Before(x, y) && Before(y, z) && x.count == y.count == z.count {
      LessTransitive(x.uuid, y.uuid, z.uuid);
    }
  }

  /** Insertion before the first entry that does not come before `e`. */
  function Insert(e: UserCount, s: seq<UserCount>): (r: seq<UserCount>)
    ensures multiset(r) == multiset(s) + multiset{e}
  {
    if |s| == 0 then [e]
    else if Before(s[0], e) then
      assert s == [s[0]] + s[1..];
      [s[0]] + Insert(e, s[1..])
    else [e] + s
  }

  /** Inserting an entry that is not yet present into a list sorted without ties keeps it so. */
  lemma {:induction false} InsertSorted(e: UserCount, s: seq<UserCount>)
    requires StrictlySorted(s) && e !in s
    ensures StrictlySorted(Insert(e, s))
  {
    if |s| == 0 {
    } else if Before(s[0], e) {
      var tail := Insert(e, s[1..]);
      InsertSorted(e, s[1..]);
      forall x | x in tail ensures Before(s[0], x) {
        assert x in multiset(tail);
        if x != e {
          assert x in multiset(s[1..]);
          var k :| 0 <= k < |s[1..]| && s[1..][k] == x;
          assert s[k + 1] == x;
        }
      }
      var r := [s[0]] + tail;
      assert forall j :: 0 < j < |r| ==> r[j] == tail[j - 1];
    } else {
      BeforeIsStrictTotal(e, s[0], s[0]);
      forall j | 0 < j < |s| ensures Before(e, s[j]) {
        BeforeIsStrictTotal(e, s[0], s[j]);
      }
    }
  }

  /** `sort.SliceStable` with `Before`, as insertion sort: a permutation of its input. */
  function SortEntries(s: seq<UserCount>): (r: seq<UserCount>)
    ensures multiset(r) == multiset(s)
  {
    if |s| == 0 then []
    else
      assert s == [s[0]] + s[1..];
      Insert(s[0], SortEntries(s[1..]))
  }

  /** Distinct entries come out sorted without ties. */
  lemma {:induction false} SortEntriesSorted(s: seq<UserCount>)
    requires Distinct(s)
    ensures StrictlySorted(SortEntries(s))
  {
    if |s| > 0 {
      var rest := SortEntries(s[1..]);
      SortEntriesSorted(s[1..]);
      assert s[0] !in s[1..];
      assert s[0] !in multiset(rest);
      InsertSorted(s[0], rest);
    }
  }

  /** The counting loop: `memo[v.UserID]++` for every record. */
  method CountByUser(ids: seq<AmplitudeID>) returns (memo: map<string, nat>)
    ensures memo.Keys == UserIDs(ids)
    ensures forall u :: u in memo ==> memo[u] == Occurrences(ids, u)
  {
    memo := map[];
    var i := 0;
    while i < |ids|
      invariant 0 <= i <= |ids|
      invariant memo.Keys == UserIDs(ids[..i])
      invariant forall u :: u in memo ==> memo[u] == Occurrences(ids[..i], u)
    {
      var u := ids[i].userId;
      memo := memo[u := (if u in memo then memo[u] else 0) + 1];
      assert ids[..i + 1] == ids[..i] + [ids[i]];
      OccurrencesSnoc(ids[..i], ids[i]);
      OccurrencesPositive(ids[..i], u);
      i := i + 1;
    }
    assert ids[..i] == ids;
  }

  /**
    The listing loop: one entry per key of the map. Go ranges over a map in
    an unspecified order, so the next key is any key not yet listed.
   */
  method ListCounts(memo: map<string, nat>) returns (entries: seq<UserCount>)
    ensures forall e :: e in entries ==> e.uuid in memo && e.count == memo[e.uuid]
    ensures Keys(entries) == memo.Keys
    ensures KeysUnique(entries)
  {
    entries := [];
    var rest := memo.Keys;
    while rest != {}
      invariant rest <= memo.Keys
      invariant forall e :: e in entries ==> e.uuid in memo && e.count == memo[e.uuid]
      invariant Keys(entries) == memo.Keys - rest
      invariant KeysUnique(entries)
      decreases |rest|
    {
      var k :| k in rest;
      KeysSnoc(entries, UserCount(k, memo[k]));
      entries := entries + [UserCount(k, memo[k])];
      rest := rest - {k};
    }
  }

  lemma KeysSnoc(s: seq<UserCount>, e: UserCount)
    ensures Keys(s + [e]) == Keys(s) + {e.uuid}
  {
    assert forall x :: x in s + [e] <==> x in s || x == e;
  }

  /** `printAmplitudeIDSummary`: count per UserID in a map, list the map, sort the list. */
  method Summarize(ids: seq<AmplitudeID>) returns (r: seq<UserCount>)
    ensures IsSummaryOf(r, ids)
    ensures KeysUnique(r)
    ensures forall e :: e in r ==> e.count >= 1
    ensures SumCounts(r) == |ids|
  {
    var memo := CountByUser(ids);
    var entries := ListCounts(memo);
    r := SortEntries(entries);
    SortEntriesSorted(entries);
    forall e | e in r ensures e in entries {
      assert e in multiset(r);
    }
    forall e | e in entries ensures e in r {
      assert e in multiset(entries);
    }
    assert Keys(r) == Keys(entries);
    SummaryFacts(r, ids);
  }

  /** One more record adds one occurrence of `u` if it carries `u`, and none otherwise. */
  lemma OccurrencesStep(ids: seq<AmplitudeID>, x: AmplitudeID, u: string)
    ensures Occurrences(ids + [x], u) == Occurrences(ids, u) + (if x.userId == u then 1 else 0)
  {
    assert (ids + [x])[..|ids|] == ids;
  }

  /** One more record adds one occurrence of its own UserID and none of any other. */
  lemma OccurrencesSnoc(ids: seq<AmplitudeID>, x: AmplitudeID)
    ensures forall u :: Occurrences(ids + [x], u) == Occurrences(ids, u) + (if x.userId == u then 1 else 0)
  {
    assert (ids + [x])[..|ids|] == ids;
  }

  /** A UserID occurs at least once exactly when some record carries it. */
  lemma {:induction false} OccurrencesPositive(ids: seq<AmplitudeID>, u: string)
    ensures Occurrences(ids, u) >= 1 <==> u in UserIDs(ids)
  {
    if |ids| > 0 {
      var init := ids[..|ids| - 1];
      OccurrencesPositive(init, u);
      assert ids == init + [ids[|ids| - 1]];
      assert UserIDs(ids) == UserIDs(init) + {ids[|ids| - 1].userId};
    }
  }

  /** How many entries of `r` have the uuid `u`. */
  function KeyHits(r: seq<UserCount>, u: string): nat
  {
    if |r| == 0 then 0 else (if r[0].uuid == u then 1 else 0) + KeyHits(r[1..], u)
  }

  /** The occurrences in `ids` of every entry's uuid, summed over the entries. */
  function SumOccurrences(r: seq<UserCount>, ids: seq<AmplitudeID>): nat
  {
    if |r| == 0 then 0 else Occurrences(ids, r[0].uuid) + SumOccurrences(r[1..], ids)
  }

  lemma {:induction false} KeyHitsOne(r: seq<UserCount>, u: string)
    requires KeysUnique(r) && u in Keys(r)
    ensures KeyHits(r, u) == 1
  {
    if r[0].uuid == u {
      KeyHitsZero(r[1..], u);
    } else {
      assert u in Keys(r[1..]);
      KeyHitsOne(r[1..], u);
    }
  }

  lemma {:induction false} KeyHitsZero(r: seq<UserCount>, u: string)
    requires forall e :: e in r ==> e.uuid != u
    ensures KeyHits(r, u) == 0
  {
    if |r| > 0 {
      KeyHitsZero(r[1..], u);
    }
  }

  /** One more record adds one to the sum for each entry with its UserID. */
  lemma {:induction false} SumOccurrencesSnoc(r: seq<UserCount>, ids: seq<AmplitudeID>, x: AmplitudeID)
    ensures SumOccurrences(r, ids + [x]) == SumOccurrences(r, ids) + KeyHits(r, x.userId)
  {
    if |r| > 0 {
      SumOccurrencesSnoc(r[1..], ids, x);
      assert (ids + [x])[..|ids|] == ids;
    }
  }

  /** Entries with unique keys covering every UserID account for every record once. */
  lemma {:induction false} SumOccurrencesAll(r: seq<UserCount>, ids: seq<AmplitudeID>)
    requires KeysUnique(r) && UserIDs(ids) <= Keys(r)
    ensures SumOccurrences(r, ids) == |ids|
  {
    if |ids| == 0 {
      ZeroOccurrences(r, ids);
    } else {
      var init, x := ids[..|ids| - 1], ids[|ids| - 1];
      assert ids == init + [x];
      assert UserIDs(init) <= UserIDs(ids);
      SumOccurrencesAll(r, init);
      SumOccurrencesSnoc(r, init, x);
      KeyHitsOne(r, x.userId);
    }
  }

  lemma {:induction false} ZeroOccurrences(r: seq<UserCount>, ids: seq<AmplitudeID>)
    requires |ids| == 0
    ensures SumOccurrences(r, ids) == 0
  {
    if |r| > 0 {
      ZeroOccurrences(r[1..], ids);
    }
  }

  lemma {:induction false} SumCountsIsSumOccurrences(r: seq<UserCount>, ids: seq<AmplitudeID>)
    requires forall e :: e in r ==> e.count == Occurrences(ids, e.uuid)
    ensures SumCounts(r) == SumOccurrences(r, ids)
  {
    if |r| > 0 {
      assert r[0] in r;
      SumCountsIsSumOccurrences(r[1..], ids);
    }
  }

  /**
    What follows from being the report of `ids`: one entry per UserID, every
    count at least one, and the counts add up to the number of records.
   */
  lemma SummaryFacts(r: seq<UserCount>, ids: seq<AmplitudeID>)
    requires IsSummaryOf(r, ids)
    ensures KeysUnique(r)
    ensures forall e :: e in r ==> e.count >= 1
    ensures SumCounts(r) == |ids|
  {
    forall i, j | 0 <= i < j < |r| ensures r[i].uuid != r[j].uuid {
      assert r[i] in r && r[j] in r;
      BeforeIsStrictTotal(r[i], r[j], r[j]);
    }
    forall e | e in r ensures e.count >= 1 {
      OccurrencesPositive(ids, e.uuid);
    }
    SumCountsIsSumOccurrences(r, ids);
    SumOccurrencesAll(r, ids);
  }

  /**
    A non-empty list holds its first entry. Kept as a lemma so that the case
    where that entry cannot exist is never indexed in the caller.
   */
  lemma HeadIsMember(b: seq<UserCount>)
    ensures |b| > 0 ==> b[0] in b
  {
  }

  /** Two lists sorted without ties and holding the same entries are the same list. */
  lemma {:induction false} StrictlySortedUnique(a: seq<UserCount>, b: seq<UserCount>)
    requires StrictlySorted(a) && StrictlySorted(b)
    requires forall x :: x in a <==> x in b
    ensures a == b
  {
    if |a| == 0 {
      HeadIsMember(b);
    } else {
      assert a[0] in b;
      assert b[0] in a;
      BeforeIsStrictTotal(a[0], b[0], b[0]);
      assert a[0] == b[0];
      forall x ensures x in a[1..] <==> x in b[1..] {
        BeforeIsStrictTotal(a[0], a[0], a[0]);
        if x in a[1..] {
          var i :| 1 <= i < |a| && a[i] == x;
        }
        if x in b[1..] {
          var i :| 1 <= i < |b| && b[i] == x;
        }
        assert x in a ==> x == a[0] || x in a[1..];
        assert x in b ==> x == b[0] || x in b[1..];
      }
      StrictlySortedUnique(a[1..], b[1..]);
      assert a == [a[0]] + a[1..] && b == [b[0]] + b[1..];
    }
  }

  /**
    The report is determined by the records alone: whatever order Go's map
    iteration lists the users in, sorting yields the same list.
   */
  lemma SummaryUnique(r1: seq<UserCount>, r2: seq<UserCount>, ids: seq<AmplitudeID>)
    requires IsSummaryOf(r1, ids) && IsSummaryOf(r2, ids)
    ensures r1 == r2
  {
    forall x ensures x in r1 ==> x in r2 {
      if x in r1 {
        assert x.uuid in Keys(r2);
        var y :| y in r2 && y.uuid == x.uuid;
      }
    }
    forall x ensures x in r2 ==> x in r1 {
      if x in r2 {
        assert x.uuid in Keys(r1);
        var y :| y in r1 && y.uuid == x.uuid;
      }
    }
    StrictlySortedUnique(r1, r2);
  }

  /** An example report: UserIDs b, a, a, c, c, c give (b,1), (a,2), (c,3). */
  lemma ExampleReport(r: seq<UserCount>)
    requires IsSummaryOf(r, ExampleIds())
    ensures r == ExpectedReport()
  {
    ExpectedIsSummary();
    SummaryUnique(r, ExpectedReport(), ExampleIds());
  }

  function ExpectedReport(): seq<UserCount>
  {
    [UserCount("b", 1), UserCount("a", 2), UserCount("c", 3)]
  }

  /** The expected list is a summary of the example records. */
  lemma ExpectedIsSummary()
    ensures IsSummaryOf(ExpectedReport(), ExampleIds())
  {
    ExampleCount("a");
    ExampleCount("b");
    ExampleCount("c");
    ExampleUsers();
    ExpectedShape();
  }

  lemma ExpectedShape()
    ensures Keys(ExpectedReport()) == {"a", "b", "c"}
    ensures StrictlySorted(ExpectedReport())
  {
    var expected := ExpectedReport();
    assert expected[0].uuid == "b" && expected[1].uuid == "a" && expected[2].uuid == "c";
    assert Before(expected[0], expected[1]) && Before(expected[1], expected[2]) && Before(expected[0], expected[2]);
  }

  function ExampleIds(): seq<AmplitudeID>
  {
    [User("b"), User("a"), User("a"), User("c"), User("c"), User("c")]
  }

  /** In the example, a occurs twice, b once, c three times and every other UserID never. */
  lemma ExampleCount(u: string)
    ensures Occurrences(ExampleIds(), u) == if u == "a" then 2 else if u == "b" then 1 else if u == "c" then 3 else 0
  {
    var s0: seq<AmplitudeID> := [];
    var s1 := s0 + [User("b")];
    var s2 := s1 + [User("a")];
    var s3 := s2 + [User("a")];
    var s4 := s3 + [User("c")];
    var s5 := s4 + [User("c")];
    OccurrencesStep(s0, User("b"), u);
    OccurrencesStep(s1, User("a"), u);
    OccurrencesStep(s2, User("a"), u);
    OccurrencesStep(s3, User("c"), u);
    OccurrencesStep(s4, User("c"), u);
    OccurrencesStep(s5, User("c"), u);
    assert ExampleIds() == s5 + [User("c")];
  }

  lemma ExampleUsers()
    ensures UserIDs(ExampleIds()) == {"a", "b", "c"}
  {
    var ids := ExampleIds();
    assert ids[0].userId == "b" && ids[1].userId == "a" && ids[5].userId == "c";
    forall u | u in UserIDs(ids) ensures u in {"a", "b", "c"} {
      var x :| x in ids && x.userId == u;
      var k :| 0 <= k < |ids| && ids[k] == x;
    }
  }

  function User(u: string): AmplitudeID
  {
    Zero.(userId := u)
  }
}
