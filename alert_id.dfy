/**
 * T2GetAlertId: finds the alert that first introduced a detection, by
 * reconciling the journals written by earlier runs of the journal unit.
 */
module AlertId {
  import opened Wrappers

  /** Unit label of the views whose payload is a list of journal entries. */
  const JOURNAL_UNIT: string := "T2GetAlertJournal"

  /** One journal entry: when, by which run, which detections it upserted, from which alert. */
  datatype Journal = Journal(ts: int, run: int, upsert: seq<int>, alert: int)

  /** A decoded result of an earlier unit; only journal units are read. */
  datatype View = View(unit: string, payload: seq<Journal>)

  /** What `process` returns when a journal was found: `{"ts": .., "alertId": ..}`. */
  datatype Provenance = Provenance(ts: int, alertId: int)

  // ---------------------------------------------------------------------------
  // Candidate collection
  // ---------------------------------------------------------------------------

  /** The entries of one payload whose upsert list mentions `sid`, in payload order. */
  function Matching(sid: int, payload: seq<Journal>): (r: seq<Journal>)
    ensures forall j :: j in r <==> j in payload && sid in j.upsert
  {
    if payload == [] then []
    else
      var last := payload[|payload| - 1];
      Matching(sid, payload[..|payload| - 1]) + (if sid in last.upsert then [last] else [])
  }

  /** All candidate entries: journal views in view order, each in payload order. */
  function Candidates(sid: int, views: seq<View>): (c: seq<Journal>)
  {
    if views == [] then []
    else
      var last := views[|views| - 1];
      Candidates(sid, views[..|views| - 1])
        + (if last.unit == JOURNAL_UNIT then Matching(sid, last.payload) else [])
  }

  lemma {:induction false} CandidatesAppend(sid: int, a: seq<View>, b: seq<View>)
    ensures Candidates(sid, a + b) == Candidates(sid, a) + Candidates(sid, b)
    decreases |b|
  {
    if b == [] {
      assert a + b == a;
    } else {
      var b', v := b[..|b| - 1], b[|b| - 1];
      var tail := if v.unit == JOURNAL_UNIT then Matching(sid, v.payload) else [];
      assert (a + b)[..|a + b| - 1] == a + b' && (a + b)[|a + b| - 1] == v;
      assert Candidates(sid, a + b) == Candidates(sid, a + b') + tail;
      assert Candidates(sid, b) == Candidates(sid, b') + tail;
      CandidatesAppend(sid, a, b');
    }
  }

  /** A journal entry is a candidate iff some journal view holds it and it upserts `sid`. */
  lemma {:induction false} CandidatesMembership(sid: int, views: seq<View>, j: Journal)
    ensures j in Candidates(sid, views) <==>
            (sid in j.upsert && exists v :: v in views && v.unit == JOURNAL_UNIT && j in v.payload)
  {
    if views != [] {
      var init := views[..|views| - 1];
      var last := views[|views| - 1];
      CandidatesMembership(sid, init, j);
      assert views == init + [last];
      if sid in j.upsert && last.unit == JOURNAL_UNIT && j in last.payload {
        assert j in Matching(sid, last.payload);
      }
      if exists v :: v in views && v.unit == JOURNAL_UNIT && j in v.payload {
        var v :| v in views && v.unit == JOURNAL_UNIT && j in v.payload;
        if v != last {
          assert v in init;
        }
      }
    }
  }

  /** There is no candidate iff no journal view holds an entry that upserts `sid`. */
  lemma CandidatesEmptyIff(sid: int, views: seq<View>)
    ensures Candidates(sid, views) == [] <==>
            forall v, j :: v in views && v.unit == JOURNAL_UNIT && j in v.payload ==> sid !in j.upsert
  {
    var c := Candidates(sid, views);
    if c != [] {
      CandidatesMembership(sid, views, c[0]);
    }
    forall v, j | v in views && v.unit == JOURNAL_UNIT && j in v.payload && sid in j.upsert
      ensures c != []
    {
      CandidatesMembership(sid, views, j);
    }
  }

  /** A view of another unit, inserted anywhere, changes nothing. */
  lemma OtherUnitsIgnored(sid: int, before: seq<View>, v: View, after: seq<View>)
    requires v.unit != JOURNAL_UNIT
    ensures Candidates(sid, before + [v] + after) == Candidates(sid, before + after)
  {
    CandidatesAppend(sid, before + [v], after);
    CandidatesAppend(sid, before, [v]);
    CandidatesAppend(sid, before, after);
    assert [v][..0] == [];
  }

  // ---------------------------------------------------------------------------
  // Run ids
  // ---------------------------------------------------------------------------

  /** `set(t0journal["run"] for t0journal in t0journals)`. */
  function RunIds(c: seq<Journal>): (ids: set<int>)
  {
    set j | j in c :: j.run
  }

  /** The largest run id among the entries of `c`. */
  function MaxRun(c: seq<Journal>): (m: int)
    requires c != []
    ensures exists k :: 0 <= k < |c| && c[k].run == m
    ensures forall k :: 0 <= k < |c| ==> c[k].run <= m
  {
    if |c| == 1 then c[0].run
    else
      var m' := MaxRun(c[..|c| - 1]);
      if c[|c| - 1].run > m' then c[|c| - 1].run else m'
  }

  /** `MaxRun` is `sorted(runids)[-1]`: the greatest element of the run-id set. */
  lemma MaxRunIsGreatestRunId(c: seq<Journal>)
    requires c != []
    ensures MaxRun(c) in RunIds(c)
    ensures forall r :: r in RunIds(c) ==> r <= MaxRun(c)
  {
    var k :| 0 <= k < |c| && c[k].run == MaxRun(c);
    assert c[k] in c;
    forall r | r in RunIds(c) ensures r <= MaxRun(c) {
      var j :| j in c && j.run == r;
      var i :| 0 <= i < |c| && c[i] == j;
    }
  }

  /** The entries of `s` that belong to run `m`, in order (the comprehension at lines 51-55). */
  function OfRun(s: seq<Journal>, m: int): (r: seq<Journal>)
  {
    if s == [] then []
    else OfRun(s[..|s| - 1], m) + (if s[|s| - 1].run == m then [s[|s| - 1]] else [])
  }

  lemma {:induction false} OfRunMembers(s: seq<Journal>, m: int)
    ensures forall j :: j in OfRun(s, m) <==> j in s && j.run == m
  {
    if s != [] {
      OfRunMembers(s[..|s| - 1], m);
      assert s == s[..|s| - 1] + [s[|s| - 1]];
    }
  }

  // ---------------------------------------------------------------------------
  // Stable sort by timestamp
  // ---------------------------------------------------------------------------

  ghost predicate Sorted(s: seq<Journal>)
  {
    forall i, j :: 0 <= i < j < |s| ==> s[i].ts <= s[j].ts
  }

  /**
   * Places `x` after every entry of `s` that is not later than it, scanning
   * from the back: entries with the same timestamp keep their order.
   */
  function Insert(s: seq<Journal>, x: Journal): (r: seq<Journal>)
    ensures |r| == |s| + 1
  {
    if s == [] then [x]
    else if s[|s| - 1].ts > x.ts then Insert(s[..|s| - 1], x) + [s[|s| - 1]]
    else s + [x]
  }

  lemma {:induction false} InsertPermutes(s: seq<Journal>, x: Journal)
    ensures multiset(Insert(s, x)) == multiset(s) + multiset{x}
  {
    if s != [] && s[|s| - 1].ts > x.ts {
      InsertPermutes(s[..|s| - 1], x);
      assert s == s[..|s| - 1] + [s[|s| - 1]];
    }
  }

  lemma {:induction false} InsertSorted(s: seq<Journal>, x: Journal)
    requires Sorted(s)
    ensures Sorted(Insert(s, x))
  {
    if s != [] && s[|s| - 1].ts > x.ts {
      var s', y := s[..|s| - 1], s[|s| - 1];
      InsertSorted(s', x);
      InsertPermutes(s', x);
      var r' := Insert(s', x);
      forall i | 0 <= i < |r'| ensures r'[i].ts <= y.ts {
        assert r'[i] in multiset(r');
        if r'[i] != x {
          assert r'[i] in multiset(s');
          var k :| 0 <= k < |s'| && s'[k] == r'[i];
        }
      }
    }
  }

  /** The stable sort by `ts` that `t0journals.sort(key=lambda x: x["ts"])` performs. */
  function SortByTs(c: seq<Journal>): (r: seq<Journal>)
    ensures |r| == |c|
  {
    if c == [] then []
    else Insert(SortByTs(c[..|c| - 1]), c[|c| - 1])
  }

  /** The sort orders by timestamp and only rearranges its input. */
  lemma {:induction false} SortByTsSortsAndPermutes(c: seq<Journal>)
    ensures Sorted(SortByTs(c))
    ensures multiset(SortByTs(c)) == multiset(c)
  {
    if c != [] {
      var c' := c[..|c| - 1];
      assert c == c' + [c[|c| - 1]];
      SortByTsSortsAndPermutes(c');
      InsertSorted(SortByTs(c'), c[|c| - 1]);
      InsertPermutes(SortByTs(c'), c[|c| - 1]);
    }
  }

  lemma {:induction false} OfRunSorted(s: seq<Journal>, m: int)
    requires Sorted(s)
    ensures Sorted(OfRun(s, m))
  {
    if s != [] {
      var s' := s[..|s| - 1];
      OfRunSorted(s', m);
      OfRunMembers(s', m);
      var r' := OfRun(s', m);
      if s[|s| - 1].run == m {
        forall k | 0 <= k < |r'| ensures r'[k].ts <= s[|s| - 1].ts {
          assert r'[k] in s';
        }
      }
    }
  }

  lemma OfRunSnoc(s: seq<Journal>, y: Journal, m: int)
    ensures OfRun(s + [y], m) == OfRun(s, m) + (if y.run == m then [y] else [])
  {
    assert (s + [y])[..|s|] == s;
  }

  lemma InsertSnoc(s: seq<Journal>, y: Journal, x: Journal)
    ensures Insert(s + [y], x) == if y.ts > x.ts then Insert(s, x) + [y] else s + [y] + [x]
  {
    assert (s + [y])[..|s|] == s;
  }

  /** Filtering by run commutes with inserting into a sorted list. */
  lemma {:induction false} OfRunInsert(s: seq<Journal>, x: Journal, m: int)
    requires Sorted(s)
    ensures OfRun(Insert(s, x), m)
         == if x.run == m then Insert(OfRun(s, m), x) else OfRun(s, m)
  {
    if s == [] {
      OfRunSnoc([], x, m);
    } else if s[|s| - 1].ts > x.ts {
      var s', y := s[..|s| - 1], s[|s| - 1];
      assert Sorted(s');
      OfRunInsert(s', x, m);
      assert s == s' + [y];
      OfRunInsertBefore(s', y, x, m);
    } else {
      OfRunInsertAfter(s, x, m);
    }
  }

  /** The step of `OfRunInsert` where `x` goes before the last entry `y`. */
  lemma OfRunInsertBefore(s: seq<Journal>, y: Journal, x: Journal, m: int)
    requires y.ts > x.ts
    requires OfRun(Insert(s, x), m)
          == if x.run == m then Insert(OfRun(s, m), x) else OfRun(s, m)
    ensures OfRun(Insert(s + [y], x), m)
         == if x.run == m then Insert(OfRun(s + [y], m), x) else OfRun(s + [y], m)
  {
    var tail := if y.run == m then [y] else [];
    InsertSnoc(s, y, x);
    assert Insert(s + [y], x) == Insert(s, x) + [y];
    OfRunSnoc(s, y, m);
    OfRunSnoc(Insert(s, x), y, m);
    assert OfRun(Insert(s + [y], x), m) == OfRun(Insert(s, x), m) + tail;
    assert OfRun(s + [y], m) == OfRun(s, m) + tail;
    if x.run == m {
      assert OfRun(Insert(s, x), m) == Insert(OfRun(s, m), x);
      if y.run == m {
        InsertSnoc(OfRun(s, m), y, x);
        assert Insert(OfRun(s + [y], m), x) == Insert(OfRun(s, m), x) + [y];
      } else {
        assert OfRun(s + [y], m) == OfRun(s, m);
      }
    } else {
      assert OfRun(Insert(s, x), m) == OfRun(s, m);
    }
  }

  /** The step of `OfRunInsert` where `x` goes last. */
  lemma OfRunInsertAfter(s: seq<Journal>, x: Journal, m: int)
    requires Sorted(s) && s != [] && s[|s| - 1].ts <= x.ts
    ensures OfRun(Insert(s, x), m)
         == if x.run == m then Insert(OfRun(s, m), x) else OfRun(s, m)
  {
    assert Insert(s, x) == s + [x];
    OfRunSnoc(s, x, m);
    if x.run == m {
      var f := OfRun(s, m);
      if f != [] {
        OfRunMembers(s, m);
        assert f[|f| - 1] in s;
        assert f == f[..|f| - 1] + [f[|f| - 1]];
        InsertSnoc(f[..|f| - 1], f[|f| - 1], x);
      }
    }
  }

  /**
   * Sorting then keeping run `m` (the order of `process`) equals keeping run
   * `m` then sorting: the narrowing may happen on either side of the sort.
   */
  lemma {:induction false} SortThenNarrow(c: seq<Journal>, m: int)
    ensures OfRun(SortByTs(c), m) == SortByTs(OfRun(c, m))
  {
    if c != [] {
      var c', x := c[..|c| - 1], c[|c| - 1];
      assert c == c' + [x];
      SortThenNarrow(c', m);
      SortByTsSortsAndPermutes(c');
      OfRunInsert(SortByTs(c'), x, m);
      SortThenNarrowStep(c', x, m);
    }
  }

  /** The step of `SortThenNarrow` for one more candidate `x`. */
  lemma SortThenNarrowStep(c: seq<Journal>, x: Journal, m: int)
    requires OfRun(SortByTs(c), m) == SortByTs(OfRun(c, m))
    requires OfRun(Insert(SortByTs(c), x), m)
          == if x.run == m then Insert(OfRun(SortByTs(c), m), x) else OfRun(SortByTs(c), m)
    ensures OfRun(SortByTs(c + [x]), m) == SortByTs(OfRun(c + [x], m))
  {
    var f, s := OfRun(c, m), SortByTs(c);
    assert (c + [x])[..|c|] == c;
    assert SortByTs(c + [x]) == Insert(s, x);
    OfRunSnoc(c, x, m);
    if x.run == m {
      assert OfRun(c + [x], m) == f + [x];
      assert (f + [x])[..|f|] == f;
      calc {
        OfRun(SortByTs(c + [x]), m);
        OfRun(Insert(s, x), m);
        Insert(OfRun(s, m), x);
        Insert(SortByTs(f), x);
        SortByTs(f + [x]);
      }
    } else {
      assert OfRun(c + [x], m) == f;
      assert OfRun(SortByTs(c + [x]), m) == OfRun(s, m);
    }
  }

  lemma {:induction false} InsertHead(s: seq<Journal>, x: Journal)
    requires Sorted(s) && s != []
    ensures Insert(s, x)[0] == if s[0].ts <= x.ts then s[0] else x
  {
    var s' := s[..|s| - 1];
    if s[|s| - 1].ts > x.ts && s' != [] {
      InsertHead(s', x);
    }
  }

  // ---------------------------------------------------------------------------
  // Reference definition of the selected entry
  // ---------------------------------------------------------------------------

  /**
   * The index of the entry of run `m` with the smallest timestamp, the
   * earliest one among equal timestamps; -1 when run `m` has no entry.
   */
  function LeadIndex(c: seq<Journal>, m: int): (k: int)
    ensures -1 <= k < |c|
    ensures k == -1 <==> forall j :: 0 <= j < |c| ==> c[j].run != m
    ensures k != -1 ==> c[k].run == m
    ensures k != -1 ==> forall j :: 0 <= j < |c| && c[j].run == m ==> c[k].ts <= c[j].ts
    ensures k != -1 ==> forall j :: 0 <= j < k && c[j].run == m ==> c[k].ts < c[j].ts
  {
    if c == [] then -1
    else
      var k' := LeadIndex(c[..|c| - 1], m);
      var x := c[|c| - 1];
      if x.run != m then k'
      else if k' == -1 || c[k'].ts > x.ts then |c| - 1
      else k'
  }

  /** The provenance `process` should report for the candidate list `c`. */
  function Lead(c: seq<Journal>): (r: Option<Provenance>)
    ensures r.None? <==> c == []
  {
    if c == [] then None
    else
      var k := LeadIndex(c, MaxRun(c));
      Some(Provenance(c[k].ts, c[k].alert))
  }

  /**
   * The head of the sorted entries of run `m` is the entry LeadIndex picks:
   * this is where sort stability is used.
   */
  lemma {:induction false} SortedHeadIsLead(c: seq<Journal>, m: int)
    ensures OfRun(SortByTs(c), m) == [] <==> LeadIndex(c, m) == -1
    ensures LeadIndex(c, m) != -1 ==> OfRun(SortByTs(c), m)[0] == c[LeadIndex(c, m)]
  {
    if c != [] {
      var c', x := c[..|c| - 1], c[|c| - 1];
      var s := SortByTs(c');
      var k' := LeadIndex(c', m);
      var t := OfRun(s, m);
      SortedHeadIsLead(c', m);
      SortByTsSortsAndPermutes(c');
      OfRunInsert(s, x, m);
      assert SortByTs(c) == Insert(s, x);
      if x.run != m {
        assert LeadIndex(c, m) == k';
        assert OfRun(SortByTs(c), m) == t;
        if k' != -1 {
          assert c[k'] == c'[k'];
        }
      } else if t == [] {
        assert k' == -1;
        assert OfRun(SortByTs(c), m) == [x];
        assert LeadIndex(c, m) == |c| - 1;
      } else {
        assert k' != -1 && t[0] == c'[k'] && c[k'] == c'[k'];
        OfRunSorted(s, m);
        InsertHead(t, x);
        assert OfRun(SortByTs(c), m) == Insert(t, x);
      }
    }
  }

  /** The list narrowed to the latest run is never empty, so `t0journals[0]` exists. */
  lemma NarrowedNonEmpty(c: seq<Journal>)
    requires c != []
    ensures OfRun(SortByTs(c), MaxRun(c)) != []
  {
    SortedHeadIsLead(c, MaxRun(c));
  }

  /** When every candidate has run `m`, narrowing to run `m` keeps everything. */
  lemma {:induction false} OfRunAll(s: seq<Journal>, m: int)
    requires forall j :: j in s ==> j.run == m
    ensures OfRun(s, m) == s
  {
    if s != [] {
      OfRunAll(s[..|s| - 1], m);
      assert s == s[..|s| - 1] + [s[|s| - 1]];
    }
  }

  // ---------------------------------------------------------------------------
  // Properties of the reference definition
  // ---------------------------------------------------------------------------

  /**
   * A found provenance comes from a candidate of the latest run, has the
   * smallest timestamp of that run, and among equal timestamps is the first
   * in collection order.
   */
  lemma LeadIsEarliestOfLatestRun(c: seq<Journal>)
    requires c != []
    ensures exists k :: (0 <= k < |c| && Lead(c) == Some(Provenance(c[k].ts, c[k].alert))
                         && c[k].run == MaxRun(c)
                         && (forall j :: 0 <= j < |c| && c[j].run == MaxRun(c) ==> c[k].ts <= c[j].ts)
                         && (forall j :: 0 <= j < k && c[j].run == MaxRun(c) ==> c[k].ts < c[j].ts))
  {
    var k := LeadIndex(c, MaxRun(c));
    assert 0 <= k;
  }

  /** With a single run, the reported timestamp is the minimum over all candidates. */
  lemma SingleRunGivesMinimum(c: seq<Journal>)
    requires |RunIds(c)| == 1
    ensures Lead(c).Some?
    ensures forall j :: j in c ==> Lead(c).value.ts <= j.ts
    ensures exists j :: j in c && Lead(c).value.ts == j.ts
  {
    assert c != [];
    var m := MaxRun(c);
    MaxRunIsGreatestRunId(c);
    forall j | j in c ensures j.run == m {
      assert j.run in RunIds(c);
      OnlyRunId(RunIds(c), j.run, m);
    }
    var k := LeadIndex(c, m);
    assert c[k] in c;
  }

  /** A one-element set has no two distinct members. */
  lemma OnlyRunId(s: set<int>, a: int, b: int)
    requires |s| == 1 && a in s && b in s
    ensures a == b
  {
    if a != b {
      assert {a, b} <= s;
      assert |{a, b}| == 2;
      SubsetCard({a, b}, s);
    }
  }

  lemma SubsetCard(a: set<int>, b: set<int>)
    requires a <= b
    ensures |a| <= |b|
  {
    assert b == a + (b - a);
  }

  // ---------------------------------------------------------------------------
  // The operation
  // ---------------------------------------------------------------------------

  /** Lines 34-42: collects the candidate entries with two nested loops. */
  method CollectCandidates(sid: int, views: seq<View>) returns (t0journals: seq<Journal>)
    ensures t0journals == Candidates(sid, views)
  {
    t0journals := [];
    for i := 0 to |views|
      invariant t0journals == Candidates(sid, views[..i])
    {
      assert views[..i + 1][..i] == views[..i];
      if views[i].unit != JOURNAL_UNIT {
        continue;
      }
      var payload := views[i].payload;
      ghost var before := t0journals;
      for j := 0 to |payload|
        invariant t0journals == before + Matching(sid, payload[..j])
      {
        MatchingStep(sid, payload, j);
        if sid in payload[j].upsert {
          t0journals := t0journals + [payload[j]];
        }
      }
      assert payload[..|payload|] == payload;
    }
    assert views[..|views|] == views;
  }

  lemma MatchingStep(sid: int, payload: seq<Journal>, j: int)
    requires 0 <= j < |payload|
    ensures Matching(sid, payload[..j + 1]) == Matching(sid, payload[..j])
      + (if sid in payload[j].upsert then [payload[j]] else [])
  {
    assert payload[..j + 1][..j] == payload[..j];
  }

  lemma InsertShift(s: seq<Journal>, j: int, key: Journal)
    requires 0 < j <= |s| && s[j - 1].ts > key.ts
    ensures Insert(s[..j], key) + s[j..] == Insert(s[..j - 1], key) + s[j - 1..]
  {
    assert s[..j][..j - 1] == s[..j - 1];
    assert s[j - 1..] == [s[j - 1]] + s[j..];
  }

  lemma InsertStop(s: seq<Journal>, j: int, key: Journal)
    requires 0 <= j <= |s| && (j == 0 || s[j - 1].ts <= key.ts)
    ensures Insert(s[..j], key) + s[j..] == s[..j] + [key] + s[j..]
  {
  }

  /** Swapping `key` with its left neighbour moves it one place back in the layout. */
  lemma SwapBack(s: seq<Journal>, rest: seq<Journal>, j: int, key: Journal)
    requires 0 < j <= |s|
    ensures (s[..j] + [key] + s[j..] + rest)[j - 1] == s[j - 1]
    ensures (s[..j] + [key] + s[j..] + rest)[j - 1 := key][j := s[j - 1]]
         == s[..j - 1] + [key] + s[j - 1..] + rest
  {
    var u := (s[..j] + [key] + s[j..] + rest)[j - 1 := key][j := s[j - 1]];
    var v := s[..j - 1] + [key] + s[j - 1..] + rest;
    assert |u| == |v|;
    forall k | 0 <= k < |u| ensures u[k] == v[k] {
      if k < j - 1 {
        assert u[k] == s[..j][k] && v[k] == s[..j - 1][k];
      } else if j < k <= |s| {
        assert u[k] == s[j..][k - j - 1] && v[k] == s[j - 1..][k - j];
      } else if k > |s| {
        assert u[k] == rest[k - |s| - 1] && v[k] == rest[k - |s| - 1];
      }
    }
  }

  /** One step of insertion sort: moves `a[i]` back into the sorted prefix `a[..i]`. */
  method InsertInPlace(a: array<Journal>, i: int)
    requires 0 <= i < a.Length
    modifies a
    ensures a[..] == Insert(old(a[..i]), old(a[i])) + old(a[i + 1..])
  {
    ghost var s, rest := a[..i], a[i + 1..];
    var key := a[i];
    var j := i;
    assert a[..] == a[..i] + [a[i]] + a[i + 1..];
    assert s[..j] == s && s[j..] == [];
    while j > 0 && a[j - 1].ts > key.ts
      invariant 0 <= j <= i
      invariant a[..] == s[..j] + [key] + s[j..] + rest
      invariant Insert(s, key) == Insert(s[..j], key) + s[j..]
    {
      SwapBack(s, rest, j, key);
      InsertShift(s, j, key);
      a[j - 1], a[j] := key, a[j - 1];
      j := j - 1;
    }
    InsertStop(s, j, key);
  }

  /** `t0journals.sort(key=lambda x: x["ts"])`: insertion sort, in place, stable. */
  method SortInPlace(a: array<Journal>)
    modifies a
    ensures a[..] == SortByTs(old(a[..]))
  {
    ghost var orig := a[..];
    for i := 0 to a.Length
      invariant a[..] == SortByTs(orig[..i]) + orig[i..]
    {
      SplitLayout(a[..], SortByTs(orig[..i]), orig, i);
      InsertInPlace(a, i);
      SortByTsStep(orig, i);
    }
    assert orig[..a.Length] == orig;
  }

  /** Reading `done + orig[i..]` back as sorted prefix, current entry and rest. */
  lemma SplitLayout(cur: seq<Journal>, done: seq<Journal>, orig: seq<Journal>, i: int)
    requires 0 <= i < |orig| && |done| == i
    requires cur == done + orig[i..]
    ensures cur[..i] == done && cur[i] == orig[i] && cur[i + 1..] == orig[i + 1..]
  {
  }

  /** Sorting one more entry of `c` inserts it into the sorted prefix. */
  lemma SortByTsStep(c: seq<Journal>, i: int)
    requires 0 <= i < |c|
    ensures SortByTs(c[..i + 1]) == Insert(SortByTs(c[..i]), c[i])
  {
    assert c[..i + 1][..i] == c[..i];
  }

  /**
   * `T2GetAlertId.process`: the provenance of detection `sid` according to the
   * journals among `views`, and whether the multiple-run warning was logged.
   */
  method Process(sid: int, views: seq<View>) returns (res: Option<Provenance>, warned: bool)
    ensures res == Lead(Candidates(sid, views))
    ensures warned <==> |RunIds(Candidates(sid, views))| > 1
  {
    var t0journals := CollectCandidates(sid, views);
    ghost var c := t0journals;
    if t0journals == [] {
      return None, false;
    }

    var a := new Journal[|t0journals|](k requires 0 <= k < |t0journals| => t0journals[k]);
    assert a[..] == c;
    SortInPlace(a);
    t0journals := a[..];
    SortByTsSortsAndPermutes(c);
    SameRunIds(t0journals, c);
    var runids := RunIds(t0journals);
    var latest := MaxRun(t0journals);
    MaxRunIsGreatestRunId(t0journals);
    MaxRunIsGreatestRunId(c);
    assert latest == MaxRun(c);
    warned := |runids| > 1;
    if warned {
      t0journals := OfRun(t0journals, latest);
    } else {
      forall j | j in t0journals ensures j.run == latest {
        OnlyRunId(runids, j.run, latest);
      }
      OfRunAll(t0journals, latest);
    }
    SortedHeadIsLead(c, latest);
    var first := t0journals[0];
    res := Some(Provenance(first.ts, first.alert));
  }

  lemma SameRunIds(s: seq<Journal>, c: seq<Journal>)
    requires multiset(s) == multiset(c)
    ensures RunIds(s) == RunIds(c)
  {
    forall j ensures j in s <==> j in c {
      assert j in s <==> j in multiset(s);
      assert j in c <==> j in multiset(c);
    }
  }
}
