/** The per-user sliding window that gates `joinRoom`: every attempt is
    recorded, entries older than a minute are dropped, and an attempt is
    refused once the window holds more than three entries. */
module RateLimit {
  import opened Models

  /** Length of the window, in milliseconds. */
  const JoinWindow: int := 60000
  /** Most attempts a window may hold, the current one included. */
  const MaxJoinAttempts: nat := 3

  predicate Recent(ts: int, now: int) {
    now - ts < JoinWindow
  }

  /** `attempts.filter(ts => now - ts < 60000)`. */
  function Prune(w: seq<int>, now: int): (r: seq<int>)
    ensures |r| <= |w|
    ensures forall i :: 0 <= i < |r| ==> r[i] in w && Recent(r[i], now)
    ensures forall i :: 0 <= i < |w| && Recent(w[i], now) ==> w[i] in r
  {
    if w == [] then []
    else if Recent(w[0], now) then [w[0]] + Prune(w[1..], now)
    else Prune(w[1..], now)
  }

  lemma {:induction false} PruneAppend(a: seq<int>, b: seq<int>, now: int)
    ensures Prune(a + b, now) == Prune(a, now) + Prune(b, now)
  {
    if a == [] {
      assert a + b == b;
    } else {
      assert (a + b)[1..] == a[1..] + b;
      PruneAppend(a[1..], b, now);
    }
  }

  /** A window whose every entry is recent survives pruning intact. */
  lemma {:induction false} PruneAllRecent(w: seq<int>, now: int)
    requires forall i :: 0 <= i < |w| ==> Recent(w[i], now)
    ensures Prune(w, now) == w
  {
    if w != [] {
      PruneAllRecent(w[1..], now);
    }
  }

  lemma {:induction false} PruneNoneRecent(w: seq<int>, now: int)
    requires forall i :: 0 <= i < |w| ==> !Recent(w[i], now)
    ensures Prune(w, now) == []
  {
    if w != [] {
      PruneNoneRecent(w[1..], now);
    }
  }

  /** Pruning at an earlier time and then at a later one is pruning at the
      later time: an entry too old earlier is too old later. */
  lemma {:induction false} PruneCompose(w: seq<int>, t1: int, t2: int)
    requires t1 <= t2
    ensures Prune(Prune(w, t1), t2) == Prune(w, t2)
  {
    if w != [] {
      PruneCompose(w[1..], t1, t2);
    }
  }

  /** The window the limiter keeps for `uid`; none yet is the empty one. */
  function WindowOf(attempts: map<UserId, seq<int>>, uid: UserId): seq<int> {
    if uid in attempts then attempts[uid] else []
  }

  /** One check-and-record at time `now`: the pruned window with `now`
      appended, and whether the attempt is admitted. */
  function Attempt(w: seq<int>, now: int): (r: (seq<int>, bool))
    ensures r.0 == Prune(w, now) + [now]
    ensures r.1 <==> |Prune(w, now)| < MaxJoinAttempts
  {
    var window := Prune(w, now) + [now];
    (window, |window| <= MaxJoinAttempts)
  }

  /** The limiter on a user's map: the attempt is always recorded, refused
      or not, and no other user's window changes. */
  function CheckAndRecord(attempts: map<UserId, seq<int>>, uid: UserId, now: int)
    : (r: (map<UserId, seq<int>>, bool))
    ensures uid in r.0 && r.0[uid] == Attempt(WindowOf(attempts, uid), now).0
    ensures r.0[uid][|r.0[uid]| - 1] == now
    ensures forall v :: v != uid ==> (v in r.0 <==> v in attempts)
    ensures forall v :: v != uid && v in attempts ==> r.0[v] == attempts[v]
    ensures r.1 == Attempt(WindowOf(attempts, uid), now).1
  {
    var a := Attempt(WindowOf(attempts, uid), now);
    (attempts[uid := a.0], a.1)
  }

  // ---------------------------------------------------------------------
  // A user's attempts over time

  predicate Nondecreasing(times: seq<int>) {
    forall i, j :: 0 <= i <= j < |times| ==> times[i] <= times[j]
  }

  /** The window after a user's attempts at `times`, from a fresh start. */
  function Window(times: seq<int>): seq<int> {
    if times == [] then [] else Attempt(Window(times[..|times| - 1]), times[|times| - 1]).0
  }

  /** Whether the `k`-th attempt of the sequence is admitted. */
  function AdmittedAt(times: seq<int>, k: nat): bool
    requires k < |times|
  {
    Attempt(Window(times[..k]), times[k]).1
  }

  lemma NondecreasingPrefix(times: seq<int>, k: nat)
    requires Nondecreasing(times) && k <= |times|
    ensures Nondecreasing(times[..k])
  {
    var p := times[..k];
    forall i, j | 0 <= i <= j < k ensures p[i] <= p[j] {
      assert p[i] == times[i] && p[j] == times[j];
    }
  }

  /** One more attempt prunes the window at its time and appends it. */
  lemma WindowStep(times: seq<int>)
    requires times != []
    ensures var n := |times|;
      Window(times) == Prune(Window(times[..n - 1]), times[n - 1]) + [times[n - 1]]
  {
  }

  /** The window is exactly the attempts of the last minute, refused ones
      included. */
  lemma {:induction false} WindowIsRecentHistory(times: seq<int>)
    requires Nondecreasing(times) && times != []
    ensures Window(times) == Prune(times, times[|times| - 1])
    decreases |times|
  {
    var n := |times|;
    var init, t := times[..n - 1], times[n - 1];
    WindowStep(times);
    assert times == init + [t];
    PruneAppend(init, [t], t);
    assert Prune([t], t) == [t];
    if init != [] {
      NondecreasingPrefix(times, n - 1);
      WindowIsRecentHistory(init);
      assert init[|init| - 1] == times[n - 2] <= t;
      PruneCompose(init, init[|init| - 1], t);
    }
  }

  /** An attempt is admitted exactly when fewer than three earlier attempts
      fall within the minute before it. */
  lemma AdmittedIffFewRecent(times: seq<int>, k: nat)
    requires Nondecreasing(times) && k < |times|
    ensures AdmittedAt(times, k) <==> |Prune(times[..k], times[k])| < MaxJoinAttempts
  {
    if k > 0 {
      var before := times[..k];
      NondecreasingPrefix(times, k);
      WindowIsRecentHistory(before);
      assert before[k - 1] == times[k - 1] <= times[k];
      PruneCompose(before, times[k - 1], times[k]);
      assert Window(before) == Prune(before, times[k - 1]);
    }
  }

  /** Four attempts inside one minute: the fourth is refused. */
  lemma FourthInAMinuteRefused(times: seq<int>, k: nat)
    requires Nondecreasing(times) && 3 <= k < |times|
    requires times[k] - times[k - 3] < JoinWindow
    ensures !AdmittedAt(times, k)
  {
    AdmittedIffFewRecent(times, k);
    var old3, last3 := times[..k - 3], times[k - 3..k];
    assert times[..k] == old3 + last3;
    PruneAppend(old3, last3, times[k]);
    PruneAllRecent(last3, times[k]);
  }

  /** Admitted attempts are at least a minute apart from the third attempt
      before them: at most three attempts in any minute get through. */
  lemma AtMostThreePerMinute(times: seq<int>, i: nat, k: nat)
    requires Nondecreasing(times) && i + 3 <= k < |times|
    requires AdmittedAt(times, k)
    ensures times[k] - times[i] >= JoinWindow
  {
    if times[k] - times[k - 3] < JoinWindow {
      FourthInAMinuteRefused(times, k);
    }
  }

  /** A minute of silence clears the window: the next attempt is admitted. */
  lemma QuietMinuteAdmits(times: seq<int>, k: nat)
    requires Nondecreasing(times) && k < |times|
    requires k == 0 || times[k] - times[k - 1] >= JoinWindow
    ensures AdmittedAt(times, k)
  {
    AdmittedIffFewRecent(times, k);
    if k > 0 {
      assert forall i :: 0 <= i < k ==> times[..k][i] <= times[k - 1];
      PruneNoneRecent(times[..k], times[k]);
    }
  }

  /** Attempts at t, t+1, t+2 get through, one at t+3 is refused, and one at
      t+61000 gets through again. */
  lemma BoundaryExample(t: int)
    ensures var times := [t, t + 1, t + 2, t + 3, t + 61000];
      AdmittedAt(times, 0) && AdmittedAt(times, 1) && AdmittedAt(times, 2)
      && !AdmittedAt(times, 3) && AdmittedAt(times, 4)
  {
    var times := [t, t + 1, t + 2, t + 3, t + 61000];
    assert Nondecreasing(times);
    QuietMinuteAdmits(times, 0);
    AdmittedIffFewRecent(times, 1);
    AdmittedIffFewRecent(times, 2);
    FourthInAMinuteRefused(times, 3);
    QuietMinuteAdmits(times, 4);
  }
}
