/**
 What `prune_recent` of src/mask/session.rs leaves, and how rarely a full prune has to
 run: each one is paid for by PRUNE_SLACK + 1 issues.
 */
module Pruning {
  import opened Store

  // ------------------------------------------------------------- what a prune does

  /** Rows that time and capacity may remove. */
  function Evictable(t: Tables): set<string> { set o | o in t.fwd && !IsCustom(t, o) }

  predicate Expired(t: Tables, orig: string, now: int, ttl: int)
    requires orig in t.fwd
  {
    now - t.fwd[orig].ts > ttl
  }

  /** `gone` is what a prune at `now` may remove. */
  ghost predicate Removable(t: Tables, gone: set<string>, now: int, ttl: int) {
    && gone <= Evictable(t)
    && (forall o :: o in Evictable(t) && Expired(t, o, now, ttl) ==> o in gone)
    && |Evictable(t) - gone| <= RECENT_MAX
    && ((exists o :: o in gone && !Expired(t, o, now, ttl)) ==> |Evictable(t) - gone| == RECENT_MAX)
    && (forall g, o :: g in gone && o in Evictable(t) - gone ==> t.fwd[g].ts <= t.fwd[o].ts)
  }

  /**
   A full prune: nothing expired stays, at most RECENT_MAX rows do, unexpired rows go only
   to get down to that number, the oldest of them first, and custom words are untouched.
   */
  ghost predicate Pruned(t: Tables, u: Tables, now: int, ttl: int) {
    exists gone :: gone <= t.fwd.Keys && Removable(t, gone, now, ttl) && u == DropAll(t, gone)
  }

  lemma {:induction false} EvictableDrop(t: Tables, gone: set<string>)
    requires gone <= t.fwd.Keys
    ensures Evictable(DropAll(t, gone)) == Evictable(t) - gone
  {
    forall o ensures o in Evictable(DropAll(t, gone)) <==> o in Evictable(t) - gone {}
  }

  lemma {:induction false} PruneKeeps(t: Tables, u: Tables, now: int, ttl: int)
    requires Pruned(t, u, now, ttl)
    ensures Sound(t) ==> Sound(u)
    ensures Exact(t) ==> Exact(u)
    ensures u.customFwd == t.customFwd && u.customRev == t.customRev
    ensures u.fwd.Keys <= t.fwd.Keys && forall o :: o in u.fwd ==> u.fwd[o] == t.fwd[o]
    ensures forall k :: k in u.rev ==> k in t.rev && u.rev[k] == t.rev[k]
  {
    var gone :| gone <= t.fwd.Keys && Removable(t, gone, now, ttl) && u == DropAll(t, gone);
    DropAllKeeps(t, gone);
  }

  /** After a prune: few rows, none expired, and every custom word's row still there. */
  lemma {:induction false} PruneLimits(t: Tables, u: Tables, now: int, ttl: int)
    requires Pruned(t, u, now, ttl)
    ensures |Evictable(u)| <= RECENT_MAX
    ensures forall o :: o in Evictable(u) ==> !Expired(u, o, now, ttl)
    ensures forall o :: o in t.fwd && IsCustom(t, o) ==> o in u.fwd
  {
    var gone :| gone <= t.fwd.Keys && Removable(t, gone, now, ttl) && u == DropAll(t, gone);
    EvictableDrop(t, gone);
  }

  // -------------------------------------------------------------------- amortised

  /** maybe_prune_recent: a prune only above the water mark. */
  ghost predicate MaybePruned(t: Tables, u: Tables, now: int, ttl: int) {
    if |t.fwd| > RECENT_MAX + PRUNE_SLACK then Pruned(t, u, now, ttl) else u == t
  }

  datatype IssueArgs = IssueArgs(orig: string, token: string, kind: string, now: int, ttl: int)

  function AfterIssue(t: Tables, a: IssueArgs): Tables { Issue(t, a.orig, a.token, a.kind, a.now) }

  /** The issue of one new token, and the prune it may set off. A custom word is never issued one. */
  ghost predicate IssueStep(t: Tables, a: IssueArgs, u: Tables) {
    a.orig !in t.customFwd && MaybePruned(AfterIssue(t, a), u, a.now, a.ttl)
  }

  predicate Prunes(t: Tables, a: IssueArgs) { |AfterIssue(t, a).fwd| > RECENT_MAX + PRUNE_SLACK }

  /** ts are the successive states of a run of issues. */
  ghost predicate IssueRun(ts: seq<Tables>, run: seq<IssueArgs>) {
    |ts| == |run| + 1 && forall i :: 0 <= i < |run| ==> IssueStep(ts[i], run[i], ts[i + 1])
  }

  function PruneCount(ts: seq<Tables>, run: seq<IssueArgs>): nat
    requires |ts| == |run| + 1
  {
    if run == [] then 0
    else
      var n := |run| - 1;
      (if Prunes(ts[n], run[n]) then 1 else 0) + PruneCount(ts[..n + 1], run[..n])
  }

  /** No row of the recent tables belongs to a custom word. */
  ghost predicate NoWordRows(t: Tables) { forall o :: o in t.fwd ==> o !in t.customFwd }

  lemma {:induction false} IssueSize(t: Tables, a: IssueArgs)
    ensures |AfterIssue(t, a).fwd| <= |t.fwd| + 1
    ensures a.orig !in t.customFwd && NoWordRows(t) ==> NoWordRows(AfterIssue(t, a))
  {
    var u := AfterIssue(t, a);
    assert u.fwd.Keys == t.fwd.Keys + {a.orig};
    assert |u.fwd| == |u.fwd.Keys| && |t.fwd| == |t.fwd.Keys|;
  }

  lemma {:induction false} PrunedSize(t: Tables, u: Tables, now: int, ttl: int)
    requires Pruned(t, u, now, ttl) && NoWordRows(t)
    ensures |u.fwd| <= RECENT_MAX && NoWordRows(u)
  {
    var gone :| gone <= t.fwd.Keys && Removable(t, gone, now, ttl) && u == DropAll(t, gone);
    AllEvictable(t);
    SizeOf(u.fwd, t.fwd.Keys - gone);
  }

  lemma {:induction false} AllEvictable(t: Tables)
    requires NoWordRows(t)
    ensures Evictable(t) == t.fwd.Keys
  {
  }

  lemma {:induction false} SizeOf(m: map<string, Row>, keys: set<string>)
    requires m.Keys == keys
    ensures |m| == |keys|
  {
  }

  /** A step that prunes lowers the table by what PRUNE_SLACK issues put there. */
  ghost predicate Paid(t: Tables, a: IssueArgs, u: Tables) {
    NoWordRows(t) ==>
      && NoWordRows(u)
      && (if Prunes(t, a) then PRUNE_SLACK + 1 else 0) + |u.fwd| <= |t.fwd| + 1
      && |u.fwd| <= RECENT_MAX + PRUNE_SLACK
  }

  lemma {:induction false} StepIsPaid(t: Tables, a: IssueArgs, u: Tables)
    requires IssueStep(t, a, u)
    ensures Paid(t, a, u)
  {
    if NoWordRows(t) {
      IssueSize(t, a);
      if Prunes(t, a) { PrunedSize(AfterIssue(t, a), u, a.now, a.ttl); }
    }
  }

  /** What the full prunes of a run are charged: PRUNE_SLACK + 1 issues each. */
  function Charged(ts: seq<Tables>, run: seq<IssueArgs>): nat
    requires |ts| == |run| + 1
  {
    if run == [] then 0
    else
      var n := |run| - 1;
      (if Prunes(ts[n], run[n]) then PRUNE_SLACK + 1 else 0) + Charged(ts[..n + 1], run[..n])
  }

  lemma {:induction false} OneMore(n: nat, each: nat)
    ensures (1 + n) * each == each + n * each && (0 + n) * each == n * each && 0 * each == 0
  {
  }

  lemma {:induction false} ChargedIs(ts: seq<Tables>, run: seq<IssueArgs>)
    requires |ts| == |run| + 1
    ensures Charged(ts, run) == PruneCount(ts, run) * (PRUNE_SLACK + 1)
  {
    if run != [] {
      var n := |run| - 1;
      ChargedIs(ts[..n + 1], run[..n]);
      OneMore(PruneCount(ts[..n + 1], run[..n]), PRUNE_SLACK + 1);
    }
  }

  ghost predicate PaidRun(ts: seq<Tables>, run: seq<IssueArgs>) {
    |ts| == |run| + 1 && forall i :: 0 <= i < |run| ==> Paid(ts[i], run[i], ts[i + 1])
  }

  lemma {:induction false} RunIsPaid(ts: seq<Tables>, run: seq<IssueArgs>)
    requires IssueRun(ts, run)
    ensures PaidRun(ts, run)
  {
    forall i | 0 <= i < |run| ensures Paid(ts[i], run[i], ts[i + 1]) {
      StepIsPaid(ts[i], run[i], ts[i + 1]);
    }
  }

  /**
   Amortised cost: over any run of issues, what the full prunes are charged, plus the rows
   left, is at most the issues made plus the rows there were.
   */
  lemma {:induction false} PrunesArePaidFor(ts: seq<Tables>, run: seq<IssueArgs>)
    requires PaidRun(ts, run) && NoWordRows(ts[0])
    ensures Charged(ts, run) + |ts[|run|].fwd| <= |run| + |ts[0].fwd|
    ensures run != [] ==> |ts[|run|].fwd| <= RECENT_MAX + PRUNE_SLACK
    ensures NoWordRows(ts[|run|])
    decreases |run|
  {
    if run != [] {
      var n := |run| - 1;
      assert Paid(ts[n], run[n], ts[n + 1]);
      PrunesArePaidFor(ts[..n + 1], run[..n]);
    }
  }

  /**
   From an empty table, n issues set off at most n / (PRUNE_SLACK + 1) full prunes, and the
   table never outgrows the water mark.
   */
  lemma {:induction false} PrunesFromEmpty(ts: seq<Tables>, run: seq<IssueArgs>)
    requires IssueRun(ts, run) && ts[0].fwd == map[]
    ensures PruneCount(ts, run) * (PRUNE_SLACK + 1) <= |run|
    ensures |ts[|run|].fwd| <= RECENT_MAX + PRUNE_SLACK
  {
    RunIsPaid(ts, run);
    PrunesArePaidFor(ts, run);
    ChargedIs(ts, run);
  }
}
