/** The poll-driven scheduler: two insertion-ordered lists of (epoch, work) entries, one for
    coroutines and one for plain functions. */
module TaskScheduling {
  import Questions
  import ConditionKinds

  /** The work an entry stands for. The source stores closures; the closures the game
      schedules are exactly these, so each becomes a tag carrying what it captured. */
  datatype Work =
    | StartRound
    | ReleaseSeekers
    | MaxHidingTimeReached
    | CheckQuestionAnswered(question: Questions.Question)
    | RemoveCondition(condition: ConditionKinds.Condition)

  /** The source matches a function to remove by comparing bytecode, which is the same for
      every closure made by one `lambda` or method whatever it captured: here, by tag. */
  predicate SameCode(a: Work, b: Work)
  {
    match (a, b)
    case (StartRound, StartRound) => true
    case (ReleaseSeekers, ReleaseSeekers) => true
    case (MaxHidingTimeReached, MaxHidingTimeReached) => true
    case (CheckQuestionAnswered(_), CheckQuestionAnswered(_)) => true
    case (RemoveCondition(_), RemoveCondition(_)) => true
    case _ => false
  }

  lemma SameCodeIsEquivalence(a: Work, b: Work, c: Work)
    ensures SameCode(a, a)
    ensures SameCode(a, b) <==> SameCode(b, a)
    ensures SameCode(a, b) && SameCode(b, c) ==> SameCode(a, c)
    ensures SameCode(a, b) <==>
              ((a.StartRound? && b.StartRound?) || (a.ReleaseSeekers? && b.ReleaseSeekers?)
               || (a.MaxHidingTimeReached? && b.MaxHidingTimeReached?)
               || (a.CheckQuestionAnswered? && b.CheckQuestionAnswered?)
               || (a.RemoveCondition? && b.RemoveCondition?))
  {
  }

  /** An entry: the epoch second at which the work is due, and the work. */
  datatype Entry = Entry(time: int, work: Work)

  /** The entries whose work does not match `work`, in their original order. */
  function Keep(s: seq<Entry>, work: Work): (r: seq<Entry>)
    ensures |r| <= |s|
    ensures forall e :: e in r <==> e in s && !SameCode(e.work, work)
  {
    if s == [] then []
    else if SameCode(s[0].work, work) then Keep(s[1..], work)
    else [s[0]] + Keep(s[1..], work)
  }

  /** The entries still in the future at `now`, in their original order. */
  function Pending(s: seq<Entry>, now: int): (r: seq<Entry>)
    ensures |r| <= |s|
    ensures forall e :: e in r <==> e in s && now < e.time
  {
    if s == [] then []
    else if s[0].time <= now then Pending(s[1..], now)
    else [s[0]] + Pending(s[1..], now)
  }

  /** The entries due at `now`, in their original order: the ones a tick runs. */
  function Due(s: seq<Entry>, now: int): (r: seq<Entry>)
    ensures |r| <= |s|
    ensures forall e :: e in r <==> e in s && e.time <= now
  {
    if s == [] then []
    else if s[0].time <= now then [s[0]] + Due(s[1..], now)
    else Due(s[1..], now)
  }

  /** The work of each entry, in order. */
  function Works(s: seq<Entry>): (r: seq<Work>)
    ensures |r| == |s|
    ensures forall k :: 0 <= k < |s| ==> r[k] == s[k].work
  {
    if s == [] then [] else [s[0].work] + Works(s[1..])
  }

  /** How many entries are due at `now`. */
  function DueCount(s: seq<Entry>, now: int): (n: nat)
    ensures n <= |s|
  {
    |Due(s, now)|
  }

  lemma {:induction false} KeepAppend(s: seq<Entry>, t: seq<Entry>, work: Work)
    ensures Keep(s + t, work) == Keep(s, work) + Keep(t, work)
  {
    if s == [] {
      assert s + t == t;
    } else {
      assert (s + t)[0] == s[0] && (s + t)[1..] == s[1..] + t;
      KeepAppend(s[1..], t, work);
    }
  }

  /** Removal is a no-op when nothing matches. */
  lemma {:induction false} KeepNoMatch(s: seq<Entry>, work: Work)
    requires forall k :: 0 <= k < |s| ==> !SameCode(s[k].work, work)
    ensures Keep(s, work) == s
  {
    if s != [] {
      KeepNoMatch(s[1..], work);
    }
  }

  /** Removing twice removes nothing more. */
  lemma {:induction false} KeepIdempotent(s: seq<Entry>, work: Work)
    ensures Keep(Keep(s, work), work) == Keep(s, work)
  {
    var r := Keep(s, work);
    forall k | 0 <= k < |r|
      ensures !SameCode(r[k].work, work)
    {
      assert r[k] in r;
    }
    KeepNoMatch(r, work);
  }

  lemma {:induction false} PendingAppend(s: seq<Entry>, t: seq<Entry>, now: int)
    ensures Pending(s + t, now) == Pending(s, now) + Pending(t, now)
  {
    if s == [] {
      assert s + t == t;
    } else {
      var head := if s[0].time <= now then [] else [s[0]];
      PendingAppend(s[1..], t, now);
      PendingAppendHead(s, t, now);
      PendingHead(s, now);
      AppendAssoc(head, Pending(s[1..], now), Pending(t, now));
    }
  }

  lemma AppendAssoc<T>(a: seq<T>, b: seq<T>, c: seq<T>)
    ensures a + (b + c) == (a + b) + c
  {
  }

  /** The filter keeps the first entry exactly when it is in the future. */
  lemma PendingHead(s: seq<Entry>, now: int)
    requires s != []
    ensures Pending(s, now) == (if s[0].time <= now then [] else [s[0]]) + Pending(s[1..], now)
  {
  }

  lemma PendingAppendHead(s: seq<Entry>, t: seq<Entry>, now: int)
    requires s != []
    ensures Pending(s + t, now) == (if s[0].time <= now then [] else [s[0]]) + Pending(s[1..] + t, now)
  {
    PendingHead(s + t, now);
    assert (s + t)[0] == s[0] && (s + t)[1..] == s[1..] + t;
  }

  lemma {:induction false} DueAppend(s: seq<Entry>, t: seq<Entry>, now: int)
    ensures Due(s + t, now) == Due(s, now) + Due(t, now)
  {
    if s == [] {
      assert s + t == t;
    } else {
      assert (s + t)[0] == s[0] && (s + t)[1..] == s[1..] + t;
      DueAppend(s[1..], t, now);
    }
  }

  /** Every entry is either due or pending, and a tick's final filter keeps exactly the
      pending ones: no entry is both dropped and in the future. */
  lemma {:induction false} DuePendingSplit(s: seq<Entry>, now: int)
    ensures |Due(s, now)| + |Pending(s, now)| == |s|
    ensures Pending(s, now) == [] <==> forall k :: 0 <= k < |s| ==> s[k].time <= now
  {
    if s != [] {
      DuePendingSplit(s[1..], now);
      if now < s[0].time {
        assert s[0] in Pending(s, now);
      } else {
        assert forall k :: 1 <= k < |s| ==> s[k] == s[1..][k - 1];
      }
    }
  }

  /** Filtering twice filters nothing more. */
  lemma {:induction false} PendingIdempotent(s: seq<Entry>, now: int)
    ensures Pending(Pending(s, now), now) == Pending(s, now)
  {
    if s != [] {
      PendingIdempotent(s[1..], now);
    }
  }

  /** A later tick keeps less: the entries pending at a later time are the ones pending at
      an earlier time that are still in the future. */
  lemma {:induction false} PendingLater(s: seq<Entry>, now: int, later: int)
    requires now <= later
    ensures Pending(Pending(s, now), later) == Pending(s, later)
  {
    if s != [] {
      PendingLater(s[1..], now, later);
    }
  }

  /** Removing entries never adds a due one to any suffix: every entry of `Keep(s)[k..]`
      comes from `s[k..]`. */
  lemma {:induction false} KeepDueSuffix(s: seq<Entry>, work: Work, k: nat, now: int)
    requires k <= |Keep(s, work)|
    ensures k <= |s|
    ensures DueCount(Keep(s, work)[k..], now) <= DueCount(s[k..], now)
  {
    if s != [] {
      var rest := Keep(s[1..], work);
      if SameCode(s[0].work, work) {
        assert Keep(s, work) == rest;
        KeepDueSuffix(s[1..], work, k, now);
        assert s[1..][k..] == s[k + 1..];
        assert s[k..] == [s[k]] + s[k + 1..];
        DueCountCons(s[k], s[k + 1..], now);
      } else if k == 0 {
        assert Keep(s, work) == [s[0]] + rest;
        KeepDueSuffix(s[1..], work, 0, now);
        DueCountCons(s[0], rest, now);
        DueCountCons(s[0], s[1..], now);
        assert Keep(s, work)[0..] == Keep(s, work) && s[0..] == [s[0]] + s[1..];
        assert rest[0..] == rest && s[1..][0..] == s[1..];
      } else {
        assert Keep(s, work) == [s[0]] + rest;
        KeepDueSuffix(s[1..], work, k - 1, now);
        assert Keep(s, work)[k..] == rest[k - 1..];
        assert s[1..][k - 1..] == s[k..];
      }
    }
  }

  /** An entry in front adds one due entry when it is due, and none otherwise. */
  lemma DueCountCons(x: Entry, s: seq<Entry>, now: int)
    ensures DueCount([x] + s, now) == (if x.time <= now then 1 else 0) + DueCount(s, now)
  {
    var xs := [x] + s;
    assert xs[0] == x && xs[1..] == s;
  }

  /** Filtering from a matching entry `k` up to the next match `b` drops the entry at `k`
      and keeps the ones between. */
  lemma KeepFromMatch(original: seq<Entry>, work: Work, k: nat, b: nat)
    requires k < b <= |original|
    requires SameCode(original[k].work, work)
    requires forall p :: k < p < b ==> !SameCode(original[p].work, work)
    ensures Keep(original[k..], work) == original[k + 1..b] + Keep(original[b..], work)
  {
    var mid := original[k + 1..b];
    forall i | 0 <= i < |mid|
      ensures !SameCode(mid[i].work, work)
    {
      assert mid[i] == original[k + 1 + i];
    }
    KeepNoMatch(mid, work);
    SplitAt(original, k + 1, b);
    KeepAppend(mid, original[b..], work);
    KeepDropsHead(original[k..], work);
    assert original[k..][1..] == original[k + 1..];
  }

  /** A matching first entry is dropped. */
  lemma KeepDropsHead(s: seq<Entry>, work: Work)
    requires s != [] && SameCode(s[0].work, work)
    ensures Keep(s, work) == Keep(s[1..], work)
  {
  }

  /** A suffix is the slice up to `b` followed by the rest. */
  lemma SplitAt<T>(s: seq<T>, a: nat, b: nat)
    requires a <= b <= |s|
    ensures s[a..b] + s[b..] == s[a..]
  {
  }


  /** Entries all in the future are all kept by the filter. */
  lemma {:induction false} PendingAllFuture(s: seq<Entry>, now: int)
    requires forall k :: 0 <= k < |s| ==> now < s[k].time
    ensures Pending(s, now) == s
  {
    if s != [] {
      PendingAllFuture(s[1..], now);
    }
  }

  lemma {:induction false} WorksAppend(s: seq<Entry>, t: seq<Entry>)
    ensures Works(s + t) == Works(s) + Works(t)
  {
    if s == [] {
      assert s + t == t;
    } else {
      assert (s + t)[1..] == s[1..] + t;
      WorksAppend(s[1..], t);
    }
  }

  /** Extending a prefix by one entry extends its due entries by that entry when it is due. */
  lemma DuePrefixStep(s: seq<Entry>, i: nat, now: int)
    requires i < |s|
    ensures Due(s[..i + 1], now) == Due(s[..i], now) + (if s[i].time <= now then [s[i]] else [])
  {
    assert s[..i + 1] == s[..i] + [s[i]];
    DueAppend(s[..i], [s[i]], now);
    assert [s[i]][1..] == [];
  }

  /** The work of the due entries of a prefix grows by the next entry's work when it is due. */
  lemma RanPrefixStep(s: seq<Entry>, i: nat, now: int)
    requires i < |s|
    ensures Works(Due(s[..i + 1], now)) ==
      Works(Due(s[..i], now)) + (if s[i].time <= now then [s[i].work] else [])
  {
    DuePrefixStep(s, i, now);
    WorksAppend(Due(s[..i], now), if s[i].time <= now then [s[i]] else []);
  }

  /** How many entries from index `k` on are due at `now` (none when `k` is past the end). */
  function DueFrom(s: seq<Entry>, k: int, now: int): (n: nat)
    ensures n <= |s|
  {
    if 0 <= k <= |s| then DueCount(s[k..], now) else 0
  }

  lemma DueFromStep(s: seq<Entry>, k: nat, now: int)
    requires k < |s|
    ensures DueFrom(s, k, now) == (if s[k].time <= now then 1 else 0) + DueFrom(s, k + 1, now)
  {
    assert s[k..] == [s[k]] + s[k + 1..];
    DueAppend([s[k]], s[k + 1..], now);
    assert [s[k]][1..] == [];
  }

  /** An entry appended in the future adds nothing due to any suffix. */
  lemma DueFromAppendFuture(s: seq<Entry>, x: Entry, k: nat, now: int)
    requires now < x.time
    ensures DueFrom(s + [x], k, now) == DueFrom(s, k, now)
  {
    if k <= |s| {
      assert (s + [x])[k..] == s[k..] + [x];
      DueAppend(s[k..], [x], now);
      assert [x][1..] == [];
    } else if k == |s| + 1 {
      assert (s + [x])[k..] == [];
    }
  }

  /** Removing entries never adds a due one to any suffix. */
  lemma KeepDueFrom(s: seq<Entry>, work: Work, k: nat, now: int)
    ensures DueFrom(Keep(s, work), k, now) <= DueFrom(s, k, now)
  {
    if k <= |Keep(s, work)| {
      KeepDueSuffix(s, work, k, now);
    }
  }

  /** One pop of `remove_function`'s second loop: with the entries from `b` on already
      filtered, popping the matching entry at `k < b`, when nothing between them matches,
      leaves the entries from `k` on filtered. */
  lemma PopMatch(original: seq<Entry>, work: Work, k: nat, b: nat)
    requires k < b <= |original|
    requires SameCode(original[k].work, work)
    requires forall p :: k < p < b ==> !SameCode(original[p].work, work)
    ensures var f := original[..b] + Keep(original[b..], work);
      f[..k] + f[k + 1..] == original[..k] + Keep(original[k..], work)
  {
    KeepFromMatch(original, work, k, b);
    PopBeforeTail(original, Keep(original[b..], work), k, b);
  }

  /** Popping index `k` from a prefix `s[..b]` followed by a tail. */
  lemma PopBeforeTail<T>(s: seq<T>, tail: seq<T>, k: nat, b: nat)
    requires k < b <= |s|
    ensures var f := s[..b] + tail;
      f[..k] + f[k + 1..] == s[..k] + (s[k + 1..b] + tail)
  {
    var f := s[..b] + tail;
    assert f[..k] == s[..k];
    assert f[k + 1..] == s[k + 1..b] + tail;
  }

  /** Once every matching entry from the first match on is gone, the list is filtered. */
  lemma UnmatchedPrefix(original: seq<Entry>, work: Work, b: nat)
    requires b <= |original|
    requires forall p :: 0 <= p < b ==> !SameCode(original[p].work, work)
    ensures Popped(original, work, b) == Keep(original, work)
  {
    KeepNoMatch(original[..b], work);
    SplitAt(original, 0, b);
    assert original[0..b] == original[..b] && original[0..] == original;
    KeepAppend(original[..b], original[b..], work);
  }


  /** Strictly increasing indices. */
  predicate Ascending(xs: seq<nat>)
  {
    forall i, j :: 0 <= i < j < |xs| ==> xs[i] < xs[j]
  }

  /** Every index lies below `bound`. */
  predicate Below(xs: seq<nat>, bound: nat)
  {
    forall i :: 0 <= i < |xs| ==> xs[i] < bound
  }

  /** The indices below `ind` of the entries matching `work` are exactly `toDelete`. */
  predicate Collected(original: seq<Entry>, work: Work, toDelete: seq<nat>, ind: nat)
    requires ind <= |original|
  {
    forall p :: 0 <= p < ind ==> (SameCode(original[p].work, work) <==> p in toDelete)
  }

  /** Between two consecutive collected indices (or before the first, or after the last)
      no entry matches, and each collected index names a matching entry. */
  lemma CollectedGap(original: seq<Entry>, work: Work, toDelete: seq<nat>, j: nat)
    requires Ascending(toDelete) && Below(toDelete, |original|)
    requires Collected(original, work, toDelete, |original|)
    requires j <= |toDelete|
    ensures j > 0 ==> SameCode(original[toDelete[j - 1]].work, work)
    ensures var a := if j > 0 then toDelete[j - 1] + 1 else 0;
      var b := if j < |toDelete| then toDelete[j] else |original|;
      a <= b && forall p :: a <= p < b ==> !SameCode(original[p].work, work)
  {
    var a := if j > 0 then toDelete[j - 1] + 1 else 0;
    var b := if j < |toDelete| then toDelete[j] else |original|;
    if j > 0 {
      assert toDelete[j - 1] in toDelete;
    }
    forall p | a <= p < b
      ensures !SameCode(original[p].work, work)
    {
      forall i | 0 <= i < |toDelete|
        ensures toDelete[i] != p
      {
        if i < j {
          assert i == j - 1 || toDelete[i] < toDelete[j - 1];
        } else {
          assert i == j || toDelete[j] < toDelete[i];
        }
      }
    }
  }

  /** The list once every match from index `b` on has been popped. */
  function Popped(original: seq<Entry>, work: Work, b: nat): seq<Entry>
    requires b <= |original|
  {
    original[..b] + Keep(original[b..], work)
  }

  /** The index the pops have reached once `toDelete[j..]` are popped. */
  function Bound(toDelete: seq<nat>, j: nat, n: nat): nat
  {
    if j < |toDelete| then toDelete[j] else n
  }

  /** One pop of `remove_function`'s second loop, from the list filtered from
      `Bound(toDelete, j)` on to the list filtered from `toDelete[j - 1]` on. */
  lemma PopStep(original: seq<Entry>, work: Work, toDelete: seq<nat>, j: nat)
    requires Ascending(toDelete) && Below(toDelete, |original|)
    requires Collected(original, work, toDelete, |original|)
    requires 0 < j <= |toDelete|
    ensures var b := Bound(toDelete, j, |original|);
      var k := toDelete[j - 1];
      var f := Popped(original, work, b);
      k < b <= |original| && k < |f| && Bound(toDelete, j - 1, |original|) == k &&
      f[..k] + f[k + 1..] == Popped(original, work, k)
  {
    CollectedGap(original, work, toDelete, j);
    PopMatch(original, work, toDelete[j - 1], Bound(toDelete, j, |original|));
  }

  /** The scheduler. The source creates one per module; this model threads a single
      instance through the game and its condition manager. */
  class TaskScheduler {
    var tasks: seq<Entry>
    var functions: seq<Entry>

    constructor ()
      ensures tasks == [] && functions == []
    {
      tasks := [];
      functions := [];
    }

    /** `add_task`: the entry goes at the end of the coroutine list. */
    method AddTask(time: int, work: Work)
      modifies this
      ensures tasks == old(tasks) + [Entry(time, work)]
      ensures functions == old(functions)
    {
      tasks := tasks + [Entry(time, work)];
    }

    /** `add_function`: the entry goes at the end of the function list. */
    method AddFunction(time: int, work: Work)
      modifies this
      ensures functions == old(functions) + [Entry(time, work)]
      ensures tasks == old(tasks)
    {
      functions := functions + [Entry(time, work)];
    }

    /** `remove_function`: collects the indices of the matching entries in ascending order,
        then pops them from the highest down, so each pop leaves the indices still to be
        popped pointing at the entries they were collected for. */
    method RemoveFunction(work: Work)
      modifies this
      ensures functions == Keep(old(functions), work)
      ensures tasks == old(tasks)
    {
      ghost var original := functions;
      var toDelete := CollectMatches(work);
      var j := |toDelete|;
      while j > 0
        invariant 0 <= j <= |toDelete|
        invariant Bound(toDelete, j, |original|) <= |original|
        invariant functions == Popped(original, work, Bound(toDelete, j, |original|))
        invariant tasks == old(tasks)
      {
        var k := toDelete[j - 1];
        PopStep(original, work, toDelete, j);
        functions := functions[..k] + functions[k + 1..];
        j := j - 1;
      }
      CollectedGap(original, work, toDelete, 0);
      UnmatchedPrefix(original, work, Bound(toDelete, 0, |original|));
    }

    /** The first loop of `remove_function`: the indices of the entries matching `work`,
        in ascending order. */
    method CollectMatches(work: Work) returns (toDelete: seq<nat>)
      ensures Ascending(toDelete) && Below(toDelete, |functions|)
      ensures Collected(functions, work, toDelete, |functions|)
    {
      toDelete := [];
      var ind := 0;
      while ind < |functions|
        invariant 0 <= ind <= |functions|
        invariant Ascending(toDelete) && Below(toDelete, ind)
        invariant Collected(functions, work, toDelete, ind)
      {
        if SameCode(functions[ind].work, work) {
          toDelete := toDelete + [ind];
        }
        ind := ind + 1;
      }
    }

    /** The two filters that end a tick: only entries still in the future remain. */
    method Prune(now: int)
      modifies this
      ensures tasks == Pending(old(tasks), now)
      ensures functions == Pending(old(functions), now)
    {
      tasks := Pending(tasks, now);
      functions := Pending(functions, now);
    }
  }
}
