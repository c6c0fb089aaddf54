/**
 * The per-station error-rate window: `logmanyerrors` records the time of each
 * error and raises a "too many errors" notice once `toomanycnt` of them have
 * piled up; `purgeerrque` drops the entries older than `toomanysecs`.
 * Timestamps are whole seconds.
 */
module ErrorWindow {

  /** `toomanycnt`: errors that make a notice. */
  const TooManyCount: nat := 20
  /** `toomanysecs`: how long an error stays in the window. */
  const TooManySecs: int := 180

  /** An entry recorded at `e` has left the window at `now`:
      `(e - (now - toomanysecs)).total_seconds() < 0`. */
  predicate Stale(e: int, now: int) {
    e < now - TooManySecs
  }

  // --------------------------------------------------------- logmanyerrors

  /** The next append reaches the threshold. */
  predicate Overflows(q: seq<int>) {
    |q| + 1 >= TooManyCount
  }

  /** The queue after `logmanyerrors` at `now`: appended, and cleared when the threshold is reached. */
  function Logged(q: seq<int>, now: int): (r: seq<int>)
    ensures |r| < TooManyCount
    ensures Overflows(q) <==> r == []
    ensures !Overflows(q) ==> |r| == |q| + 1 && r[..|q|] == q && r[|q|] == now
  {
    if Overflows(q) then [] else q + [now]
  }

  /** Whether this call shows the notice: the threshold is reached and the latch is still open. */
  predicate Toasts(q: seq<int>, noted: bool) {
    Overflows(q) && !noted
  }

  /** `toomanynoted` after the call: once set it stays set. */
  function Noted(q: seq<int>, noted: bool): (r: bool)
    ensures noted ==> r
    ensures r <==> noted || Toasts(q, noted)
  {
    noted || Overflows(q)
  }

  /** What a run of errors at the times in `ts` does, starting from `q` and the latch
      `noted`: the final queue, the final latch and how many notices were shown. */
  function LogAll(q: seq<int>, noted: bool, ts: seq<int>): (r: (seq<int>, bool, nat))
    ensures r.2 <= 1
    ensures r.1 <==> noted || r.2 == 1
    ensures ts != [] ==> |r.0| < TooManyCount
    ensures ts == [] ==> r == (q, noted, 0)
    decreases |ts|
  {
    if ts == [] then (q, noted, 0)
    else
      var (q', noted', n) := LogAll(q, noted, ts[..|ts| - 1]);
      var t := ts[|ts| - 1];
      (Logged(q', t), Noted(q', noted'), n + if Toasts(q', noted') then 1 else 0)
  }

  /** From an empty window and an open latch, `k` errors leave `k % 20` entries and
      show exactly one notice once at least twenty have occurred, never more. */
  lemma {:induction false} LogAllFromEmpty(ts: seq<int>)
    ensures |LogAll([], false, ts).0| == |ts| % TooManyCount
    ensures LogAll([], false, ts).1 <==> |ts| >= TooManyCount
    ensures LogAll([], false, ts).2 == if |ts| >= TooManyCount then 1 else 0
  {
    if ts != [] {
      var m := |ts| - 1;
      LogAllFromEmpty(ts[..m]);
      var (q', noted', n) := LogAll([], false, ts[..m]);
      assert LogAll([], false, ts) == (Logged(q', ts[m]), Noted(q', noted'), n + if Toasts(q', noted') then 1 else 0);
      CountStep(m);
      assert Toasts(q', noted') <==> m == TooManyCount - 1;
    }
  }

  lemma CountStep(m: nat)
    ensures (m + 1) % TooManyCount == if m % TooManyCount == TooManyCount - 1 then 0 else m % TooManyCount + 1
    ensures m % TooManyCount == TooManyCount - 1 && m < TooManyCount <==> m == TooManyCount - 1
  {
  }

  /** Once the latch is set, no further error shows a notice. */
  lemma {:induction false} LatchedIsSilent(q: seq<int>, ts: seq<int>)
    ensures LogAll(q, true, ts).1
    ensures LogAll(q, true, ts).2 == 0
  {
    if ts != [] {
      LatchedIsSilent(q, ts[..|ts| - 1]);
    }
  }

  // ------------------------------------------------------------ purgeerrque

  /** The window with its stale entries dropped, in order: what `purgeerrque` is meant to leave. */
  function Purge(q: seq<int>, now: int): (r: seq<int>)
    ensures |r| <= |q|
    ensures forall i :: 0 <= i < |r| ==> !Stale(r[i], now)
  {
    if q == [] then []
    else Purge(q[..|q| - 1], now) + (if Stale(q[|q| - 1], now) then [] else [q[|q| - 1]])
  }

  /** `Purge` keeps exactly the fresh entries, as many times as they occur. */
  lemma {:induction false} PurgeKeepsFresh(q: seq<int>, now: int)
    ensures forall x :: multiset(Purge(q, now))[x] == if Stale(x, now) then 0 else multiset(q)[x]
  {
    if q != [] {
      PurgeKeepsFresh(q[..|q| - 1], now);
      assert q == q[..|q| - 1] + [q[|q| - 1]];
    }
  }

  /** A window that is already fresh is left unchanged. */
  lemma {:induction false} PurgeFreshIsIdentity(q: seq<int>, now: int)
    requires forall i :: 0 <= i < |q| ==> !Stale(q[i], now)
    ensures Purge(q, now) == q
  {
    if q != [] {
      PurgeFreshIsIdentity(q[..|q| - 1], now);
      assert q == q[..|q| - 1] + [q[|q| - 1]];
    }
  }

  /** The position of the first occurrence of `x` in `l`. */
  ghost function FirstIndex(l: seq<int>, x: int): (k: nat)
    requires x in l
    ensures k < |l| && l[k] == x && x !in l[..k]
  {
    if l[0] == x then 0
    else
      var k := 1 + FirstIndex(l[1..], x);
      assert l[..k] == [l[0]] + l[1..][..k - 1];
      k
  }

  /** `r` is `l` without its element at position `k`. */
  ghost predicate DropsAt(l: seq<int>, k: nat, r: seq<int>)
    requires k < |l|
  {
    |r| == |l| - 1 && (forall i :: 0 <= i < k ==> r[i] == l[i]) && (forall i :: k <= i < |r| ==> r[i] == l[i + 1])
  }

  lemma DropsAtSplit(l: seq<int>, k: nat, r: seq<int>)
    requires k < |l| && DropsAt(l, k, r)
    ensures r == l[..k] + l[k + 1..]
    ensures multiset(r) == multiset(l) - multiset{l[k]}
  {
    assert |r| == |l[..k] + l[k + 1..]|;
    assert forall i :: 0 <= i < |r| ==> r[i] == (l[..k] + l[k + 1..])[i];
    assert l == l[..k] + [l[k]] + l[k + 1..];
  }

  lemma DropsAtCons(h: int, t: seq<int>, k: nat, rest: seq<int>)
    requires k < |t| && DropsAt(t, k, rest)
    ensures DropsAt([h] + t, k + 1, [h] + rest)
  {
  }

  /** `list.remove(x)`: drops the first occurrence of `x`. */
  function RemoveFirst(l: seq<int>, x: int): (r: seq<int>)
    requires x in l
    ensures |r| == |l| - 1
    ensures multiset(r) == multiset(l) - multiset{x}
    ensures DropsAt(l, FirstIndex(l, x), r)
    ensures exists k :: 0 <= k < |l| && l[k] == x && x !in l[..k] && r == l[..k] + l[k + 1..]
  {
    var t := l[1..];
    assert l == [l[0]] + t;
    var r :=
      if l[0] == x then t
      else
        (var rest := RemoveFirst(t, x);
         DropsAtCons(l[0], t, FirstIndex(t, x), rest);
         [l[0]] + rest);
    DropsAtSplit(l, FirstIndex(l, x), r);
    r
  }

  /** `for errevt in self.errque: if stale: self.errque.remove(errevt)` from list
      position `i` on: the list iterator reads position `i`, moves to `i + 1`,
      and a removal shifts the rest down, so the entry after a removed one is
      never looked at. */
  function PurgeFrom(l: seq<int>, i: nat, now: int): (r: seq<int>)
    ensures |r| <= |l|
    ensures (forall k :: i <= k < |l| ==> !Stale(l[k], now)) ==> r == l
    decreases |l| - i
  {
    if i >= |l| then l
    else if Stale(l[i], now) then PurgeFrom(RemoveFirst(l, l[i]), i + 1, now)
    else PurgeFrom(l, i + 1, now)
  }

  /** `purgeerrque` as written. */
  function PurgeAsWritten(q: seq<int>, now: int): (r: seq<int>)
    ensures |r| <= |q|
    ensures (forall k :: 0 <= k < |q| ==> !Stale(q[k], now)) ==> r == q
  {
    PurgeFrom(q, 0, now)
  }

  lemma {:induction false} PurgeFromOnlyRemovesStale(l: seq<int>, i: nat, now: int)
    ensures multiset(PurgeFrom(l, i, now)) <= multiset(l)
    ensures forall x :: !Stale(x, now) ==> multiset(PurgeFrom(l, i, now))[x] == multiset(l)[x]
    decreases |l| - i
  {
    if i < |l| {
      if Stale(l[i], now) {
        PurgeFromOnlyRemovesStale(RemoveFirst(l, l[i]), i + 1, now);
      } else {
        PurgeFromOnlyRemovesStale(l, i + 1, now);
      }
    }
  }

  /** The purge as written never adds an entry and only removes stale ones. */
  lemma PurgeAsWrittenOnlyRemovesStale(q: seq<int>, now: int)
    ensures multiset(PurgeAsWritten(q, now)) <= multiset(q)
    ensures forall x :: !Stale(x, now) ==> multiset(PurgeAsWritten(q, now))[x] == multiset(q)[x]
  {
    PurgeFromOnlyRemovesStale(q, 0, now);
  }

  /** Two stale entries in a row: the second one survives the purge as written,
      while the intended purge drops both. */
  lemma PurgeAsWrittenKeepsStale()
    ensures Stale(1, 1000)
    ensures PurgeAsWritten([0, 1], 1000) == [1]
    ensures Purge([0, 1], 1000) == []
  {
    assert RemoveFirst([0, 1], 0) == [1];
    assert PurgeFrom([1], 1, 1000) == [1];
    assert [0, 1][..1] == [0];
  }
}
