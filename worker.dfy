/**
 * The download loop as a pure transition function. The loop reads the two flags at fixed
 * points (the cancel flag at the top of every item; the pause flag, and then the cancel
 * flag, on every turn of the pause wait) and otherwise checks free space, fetches and
 * writes one item after another. The window runs concurrently; its effect is captured by
 * the presses that land between two consecutive flag reads.
 */
module Worker {
  import opened Signals

  /** The free space below which the run stops: 100 MiB. */
  const MinFreeSpace: nat := 100 * 1024 * 1024

  /**
   * Everything outside the worker that decides a run:
   * `clicks[k]` are the buttons pressed after the worker's flag read number k - 1 and
   * before read number k (no presses after the last entry);
   * `freeSpace(i)` is the free space reported just before item i is fetched;
   * `fetchOk(i)` says whether fetching item i returns a success status.
   */
  datatype Env = Env(clicks: seq<seq<Button>>, freeSpace: nat -> nat, fetchOk: nat -> bool)

  function Clicks(env: Env, k: nat): seq<Button> {
    if k < |env.clicks| then env.clicks[k] else []
  }

  /**
   * How a run ends. `Finished`: every item written. `OutOfSpace(i)`: the space check
   * failed before item i (the loop breaks and still reports completion). `FetchFailed(i)`:
   * fetching item i raised. `Cancelled(i)`: the cancel flag was seen set before item i
   * was fetched. `Stalled(i)`: paused before item i with no press left that could resume
   * or cancel it, where the real loop keeps waiting. `ListingFailed`: the listing itself
   * could not be fetched.
   */
  datatype Stop = Finished | OutOfSpace(at: nat) | FetchFailed(at: nat) | Cancelled(at: nat) | Stalled(at: nat) | ListingFailed

  /**
   * The points of one item's iteration where the loop can be: about to read the cancel
   * flag at the top, about to read the pause flag, about to read the cancel flag inside
   * the pause wait, and about to check space and fetch (which reads no flag).
   */
  datatype Phase = CheckCancel | CheckPause | WaitCancel | Transfer

  function Stage(ph: Phase): nat {
    match ph
    case CheckCancel => 2
    case CheckPause => 1
    case WaitCancel => 1
    case Transfer => 0
  }

  /** The end of a run: how it stopped, how many flag reads it made, and the flags it leaves. */
  datatype Outcome = Outcome(stop: Stop, polls: nat, flags: Flags)

  /** The number of items written when a run of `n` items stops with `stop`. */
  function Processed(stop: Stop, n: nat): nat {
    match stop
    case Finished => n
    case ListingFailed => 0
    case OutOfSpace(at) => at
    case FetchFailed(at) => at
    case Cancelled(at) => at
    case Stalled(at) => at
  }

  /** Reads left before the presses run out, which bounds the pause wait. */
  function WaitMeasure(env: Env, k: nat): nat {
    if k <= |env.clicks| + 1 then |env.clicks| + 2 - k else 0
  }

  function Turn(ph: Phase): nat {
    if ph == CheckPause then 1 else 0
  }

  /**
   * The loop over `n` items, at item `i` in phase `ph`, with `k` flag reads made so far
   * and flags `f` as the worker last saw them. Each step reads at most one flag, after
   * applying the presses that land before that read.
   */
  function Exec(env: Env, n: nat, ph: Phase, i: nat, k: nat, f: Flags): Outcome
    requires i <= n && (ph != CheckCancel ==> i < n)
    decreases n - i, Stage(ph), WaitMeasure(env, k), Turn(ph)
  {
    match ph
    case CheckCancel =>
      if i == n then Outcome(Finished, k, f)
      else
        var g := PressAll(f, Clicks(env, k));
        if g.cancel then Outcome(Cancelled(i), k + 1, g.(cancel := false))
        else Exec(env, n, CheckPause, i, k + 1, g)
    case CheckPause =>
      var g := PressAll(f, Clicks(env, k));
      if g.pauseFlag then Exec(env, n, Transfer, i, k + 1, g)
      else Exec(env, n, WaitCancel, i, k + 1, g)
    case WaitCancel =>
      var g := PressAll(f, Clicks(env, k));
      if g.cancel then Outcome(Cancelled(i), k + 1, g.(cancel := false))
      else if |env.clicks| <= k + 1 then
        // No press is left to come, so the pause read that follows sees `g` as it is: a
        // set pause flag leaves the wait, a clear one keeps it waiting for ever.
        if g.pauseFlag then Exec(env, n, Transfer, i, k + 2, g) else Outcome(Stalled(i), k + 1, g)
      else Exec(env, n, CheckPause, i, k + 1, g)
    case Transfer =>
      if env.freeSpace(i) < MinFreeSpace then Outcome(OutOfSpace(i), k, f)
      else if !env.fetchOk(i) then Outcome(FetchFailed(i), k, f)
      else Exec(env, n, CheckCancel, i + 1, k, f)
  }

  /** A whole run over `n` items from the flags `f` the worker starts with. */
  function Run(env: Env, n: nat, f: Flags): Outcome {
    Exec(env, n, CheckCancel, 0, 0, f)
  }

  /** What a run that has reached item `i` can report about the items from `i` on. */
  ghost predicate StopsAtFirstFailure(env: Env, n: nat, i: nat, o: Outcome) {
    && !o.stop.ListingFailed?
    && i <= Processed(o.stop, n) <= n
    && (!o.stop.Finished? ==> o.stop.at < n)
    && (forall j :: i <= j < Processed(o.stop, n) ==> env.freeSpace(j) >= MinFreeSpace && env.fetchOk(j))
    && (o.stop.OutOfSpace? ==> env.freeSpace(o.stop.at) < MinFreeSpace)
    && (o.stop.FetchFailed? ==> env.freeSpace(o.stop.at) >= MinFreeSpace && !env.fetchOk(o.stop.at))
    && (o.stop.Cancelled? ==> !o.flags.cancel)
    && (o.stop.Stalled? ==> !o.flags.cancel && !o.flags.pauseFlag)
  }

  /**
   * Items are taken strictly in order: every item before the stopping point had enough
   * space and was fetched, a space stop names an item whose free space was under 100 MiB,
   * a fetch stop an item that had space but failed, a cancelled run leaves the cancel
   * flag clear, and a stalled run is one left with both flags clear.
   */
  lemma {:induction false} ExecStopsAtFirstFailure(env: Env, n: nat, ph: Phase, i: nat, k: nat, f: Flags)
    requires i <= n && (ph != CheckCancel ==> i < n)
    ensures StopsAtFirstFailure(env, n, i, Exec(env, n, ph, i, k, f))
    decreases n - i, Stage(ph), WaitMeasure(env, k), Turn(ph)
  {
    var g := PressAll(f, Clicks(env, k));
    match ph
    case CheckCancel =>
      if i < n && !g.cancel {
        ExecStopsAtFirstFailure(env, n, CheckPause, i, k + 1, g);
      }
    case CheckPause =>
      if g.pauseFlag {
        ExecStopsAtFirstFailure(env, n, Transfer, i, k + 1, g);
      } else {
        ExecStopsAtFirstFailure(env, n, WaitCancel, i, k + 1, g);
      }
    case WaitCancel =>
      if !g.cancel && k + 1 < |env.clicks| {
        ExecStopsAtFirstFailure(env, n, CheckPause, i, k + 1, g);
      } else if !g.cancel && g.pauseFlag {
        ExecStopsAtFirstFailure(env, n, Transfer, i, k + 2, g);
      }
    case Transfer =>
      if env.freeSpace(i) >= MinFreeSpace && env.fetchOk(i) {
        ExecStopsAtFirstFailure(env, n, CheckCancel, i + 1, k, f);
      }
  }

  lemma RunStopsAtFirstFailure(env: Env, n: nat, f: Flags)
    ensures StopsAtFirstFailure(env, n, 0, Run(env, n, f))
  {
    ExecStopsAtFirstFailure(env, n, CheckCancel, 0, 0, f);
  }

  /** No cancel press from read `k` on. */
  ghost predicate NoCancelFrom(env: Env, k: nat) {
    forall j :: k <= j < |env.clicks| ==> CancelButton !in env.clicks[j]
  }

  /** A run is only ever cancelled because someone pressed cancel. */
  lemma {:induction false} ExecWithoutCancel(env: Env, n: nat, ph: Phase, i: nat, k: nat, f: Flags)
    requires i <= n && (ph != CheckCancel ==> i < n)
    requires !f.cancel && NoCancelFrom(env, k)
    ensures !Exec(env, n, ph, i, k, f).stop.Cancelled?
    decreases n - i, Stage(ph), WaitMeasure(env, k), Turn(ph)
  {
    var g := PressAll(f, Clicks(env, k));
    PressAllCancel(f, Clicks(env, k));
    match ph
    case CheckCancel =>
      if i < n {
        ExecWithoutCancel(env, n, CheckPause, i, k + 1, g);
      }
    case CheckPause =>
      if g.pauseFlag {
        ExecWithoutCancel(env, n, Transfer, i, k + 1, g);
      } else {
        ExecWithoutCancel(env, n, WaitCancel, i, k + 1, g);
      }
    case WaitCancel =>
      if k + 1 < |env.clicks| {
        ExecWithoutCancel(env, n, CheckPause, i, k + 1, g);
      } else if g.pauseFlag {
        ExecWithoutCancel(env, n, Transfer, i, k + 2, g);
      }
    case Transfer =>
      if env.freeSpace(i) >= MinFreeSpace && env.fetchOk(i) {
        ExecWithoutCancel(env, n, CheckCancel, i + 1, k, f);
      }
  }

  /** No pause press from read `k` on. */
  ghost predicate NoPauseFrom(env: Env, k: nat) {
    forall j :: k <= j < |env.clicks| ==> PauseButton !in env.clicks[j]
  }

  lemma {:induction false} NoPauseCount(bs: seq<Button>)
    requires PauseButton !in bs
    ensures CountPauses(bs) == 0
  {
    if bs != [] {
      NoPauseCount(bs[1..]);
    }
  }

  /** A run that starts unpaused and is never paused never enters the wait, so it never stalls. */
  lemma {:induction false} ExecWithoutPause(env: Env, n: nat, ph: Phase, i: nat, k: nat, f: Flags)
    requires i <= n && (ph != CheckCancel ==> i < n) && ph != WaitCancel
    requires f.pauseFlag && NoPauseFrom(env, k)
    ensures !Exec(env, n, ph, i, k, f).stop.Stalled?
    decreases n - i, Stage(ph), WaitMeasure(env, k), Turn(ph)
  {
    var g := PressAll(f, Clicks(env, k));
    PressAllPause(f, Clicks(env, k));
    NoPauseCount(Clicks(env, k));
    match ph
    case CheckCancel =>
      if i < n && !g.cancel {
        ExecWithoutPause(env, n, CheckPause, i, k + 1, g);
      }
    case CheckPause =>
      ExecWithoutPause(env, n, Transfer, i, k + 1, g);
    case Transfer =>
      if env.freeSpace(i) >= MinFreeSpace && env.fetchOk(i) {
        ExecWithoutPause(env, n, CheckCancel, i + 1, k, f);
      }
  }

  /**
   * Cancel is latched by read `k0` when it was already set in `f` or pressed before some
   * read from `k` up to `k0`.
   */
  ghost predicate CancelLatched(env: Env, k: nat, f: Flags, k0: nat) {
    f.cancel || exists j :: k <= j <= k0 && CancelButton in Clicks(env, j)
  }

  /**
   * A latched cancel is honoured at the next cancel read: the pause wait reads the cancel
   * flag right after every pause read, and an item that is not waited for goes on to the
   * next item's cancel read, so a run that reads past `k0 + 1` has been cancelled.
   */
  lemma {:induction false} ExecHonoursCancel(env: Env, n: nat, ph: Phase, i: nat, k: nat, f: Flags, k0: nat)
    requires i <= n && (ph != CheckCancel ==> i < n)
    requires k <= k0 + 1 && (ph == CheckPause ==> k <= k0) && CancelLatched(env, k, f, k0)
    ensures Exec(env, n, ph, i, k, f).polls >= k0 + 2 ==> Exec(env, n, ph, i, k, f).stop.Cancelled?
    decreases n - i, Stage(ph), WaitMeasure(env, k), Turn(ph)
  {
    var g := PressAll(f, Clicks(env, k));
    PressAllCancel(f, Clicks(env, k));
    match ph
    case CheckCancel =>
      if i < n && !g.cancel {
        ExecHonoursCancel(env, n, CheckPause, i, k + 1, g, k0);
      }
    case CheckPause =>
      if g.pauseFlag {
        ExecHonoursCancel(env, n, Transfer, i, k + 1, g, k0);
      } else {
        ExecHonoursCancel(env, n, WaitCancel, i, k + 1, g, k0);
      }
    case WaitCancel =>
      if !g.cancel && k + 1 < |env.clicks| {
        ExecHonoursCancel(env, n, CheckPause, i, k + 1, g, k0);
      }
    case Transfer =>
      if env.freeSpace(i) >= MinFreeSpace && env.fetchOk(i) {
        ExecHonoursCancel(env, n, CheckCancel, i + 1, k, f, k0);
      }
  }

  /** The run-level statement: a cancel pressed before read `k0` ends any run that reads past `k0 + 1`. */
  lemma CancelHonoured(env: Env, n: nat, f: Flags, k0: nat)
    requires k0 < |env.clicks| && CancelButton in env.clicks[k0]
    ensures Run(env, n, f).polls >= k0 + 2 ==> Run(env, n, f).stop.Cancelled?
  {
    assert CancelButton in Clicks(env, k0);
    ExecHonoursCancel(env, n, CheckCancel, 0, 0, f, k0);
  }

  /**
   * A run started with the flags the start button leaves (cancel clear, pause set), with
   * no button pressed and every item having space and fetching successfully, writes every
   * item and finishes.
   */
  lemma UndisturbedRunFinishes(env: Env, n: nat)
    requires forall j :: 0 <= j < |env.clicks| ==> env.clicks[j] == []
    requires forall i :: 0 <= i < n ==> env.freeSpace(i) >= MinFreeSpace && env.fetchOk(i)
    ensures Run(env, n, Flags(false, true)).stop == Finished
  {
    var f := Flags(false, true);
    RunStopsAtFirstFailure(env, n, f);
    ExecWithoutCancel(env, n, CheckCancel, 0, 0, f);
    ExecWithoutPause(env, n, CheckCancel, 0, 0, f);
  }

  /**
   * Cancel does not outrank a resume that lands with it: paused at item 0, a pause press
   * and a cancel press made together during the wait let the pause read see the pause flag
   * set, so item 0 is still fetched and written, and the cancel is only seen at item 1.
   */
  lemma ResumeOutrunsCancel(env: Env, n: nat)
    requires env.clicks == [[], [PauseButton], [], [PauseButton, CancelButton]]
    requires n >= 2 && env.freeSpace(0) >= MinFreeSpace && env.fetchOk(0)
    ensures Run(env, n, Flags(false, true)) == Outcome(Cancelled(1), 5, Flags(false, true))
  {
    var f := Flags(false, true);
    assert PressAll(f, Clicks(env, 0)) == f;
    assert PressAll(f, Clicks(env, 1)) == Flags(false, false);
    assert PressAll(Flags(false, false), Clicks(env, 2)) == Flags(false, false);
    assert PressAll(Flags(false, false), Clicks(env, 3)) == Flags(true, true);
    assert PressAll(Flags(true, true), Clicks(env, 4)) == Flags(true, true);
    assert Exec(env, n, CheckCancel, 1, 4, Flags(true, true)) == Outcome(Cancelled(1), 5, Flags(false, true));
    assert Exec(env, n, CheckPause, 0, 3, Flags(false, false)) == Exec(env, n, Transfer, 0, 4, Flags(true, true));
    assert Exec(env, n, CheckPause, 0, 1, f) == Exec(env, n, WaitCancel, 0, 2, Flags(false, false));
  }

  /**
   * A resume pressed as the last press of all, while the wait is under way, is seen by the
   * pause read that follows: the wait ends, item 0 is fetched and written, and the run finishes.
   */
  lemma ResumeAtLastPress(env: Env)
    requires env.clicks == [[], [PauseButton], [PauseButton]]
    requires env.freeSpace(0) >= MinFreeSpace && env.fetchOk(0)
    ensures Run(env, 1, Flags(false, true)) == Outcome(Finished, 4, Flags(false, true))
  {
    var f := Flags(false, true);
    assert PressAll(f, Clicks(env, 0)) == f;
    assert PressAll(f, Clicks(env, 1)) == Flags(false, false);
    assert PressAll(Flags(false, false), Clicks(env, 2)) == f;
    assert Exec(env, 1, Transfer, 0, 4, f) == Outcome(Finished, 4, f);
    assert Exec(env, 1, WaitCancel, 0, 2, Flags(false, false)) == Exec(env, 1, Transfer, 0, 4, f);
    assert Exec(env, 1, CheckPause, 0, 1, f) == Exec(env, 1, WaitCancel, 0, 2, Flags(false, false));
  }

  /** The same presses with one more, empty, entry at the end: nothing more is pressed. */
  function Padded(env: Env): (e: Env)
    ensures |e.clicks| == |env.clicks| + 1
    ensures forall k: nat :: Clicks(e, k) == Clicks(env, k)
  {
    env.(clicks := env.clicks + [[]])
  }

  /**
   * Only the presses decide a run, not how their list ends: padding it with an empty entry
   * gives the same stop and the same flags, after the same number of reads unless the run
   * stalls (the padded run makes two more reads before it stalls).
   */
  lemma {:induction false} ExecIgnoresPadding(env: Env, n: nat, ph: Phase, i: nat, k: nat, f: Flags)
    requires i <= n && (ph != CheckCancel ==> i < n)
    ensures var o, p := Exec(env, n, ph, i, k, f), Exec(Padded(env), n, ph, i, k, f);
      p.stop == o.stop && p.flags == o.flags && (!o.stop.Stalled? ==> p.polls == o.polls)
    decreases n - i, Stage(ph), WaitMeasure(env, k), Turn(ph)
  {
    var e := Padded(env);
    var g := PressAll(f, Clicks(env, k));
    match ph
    case CheckCancel =>
      if i < n && !g.cancel {
        ExecIgnoresPadding(env, n, CheckPause, i, k + 1, g);
      }
    case CheckPause =>
      if g.pauseFlag {
        ExecIgnoresPadding(env, n, Transfer, i, k + 1, g);
      } else {
        ExecIgnoresPadding(env, n, WaitCancel, i, k + 1, g);
      }
    case WaitCancel =>
      if !g.cancel {
        if k + 1 < |env.clicks| {
          ExecIgnoresPadding(env, n, CheckPause, i, k + 1, g);
        } else {
          if k + 1 == |env.clicks| {
            // The padded run still has its empty entry to read: one more pause read, which
            // changes nothing.
            assert Exec(e, n, WaitCancel, i, k, f) == Exec(e, n, CheckPause, i, k + 1, g);
            assert PressAll(g, Clicks(e, k + 1)) == g && PressAll(g, Clicks(e, k + 2)) == g;
            if !g.pauseFlag {
              assert Exec(e, n, CheckPause, i, k + 1, g) == Exec(e, n, WaitCancel, i, k + 2, g);
              assert Exec(e, n, WaitCancel, i, k + 2, g) == Outcome(Stalled(i), k + 3, g);
            }
          }
          if g.pauseFlag {
            ExecIgnoresPadding(env, n, Transfer, i, k + 2, g);
          }
        }
      }
    case Transfer =>
      if env.freeSpace(i) >= MinFreeSpace && env.fetchOk(i) {
        ExecIgnoresPadding(env, n, CheckCancel, i + 1, k, f);
      }
  }

  /**
   * The whole-run form: padding the presses changes neither how a run stops nor the flags
   * it leaves, nor, unless it stalls, the number of reads it makes.
   */
  lemma RunIgnoresPadding(env: Env, n: nat, f: Flags)
    ensures Run(Padded(env), n, f).stop == Run(env, n, f).stop
    ensures Run(Padded(env), n, f).flags == Run(env, n, f).flags
    ensures !Run(env, n, f).stop.Stalled? ==> Run(Padded(env), n, f).polls == Run(env, n, f).polls
  {
    ExecIgnoresPadding(env, n, CheckCancel, 0, 0, f);
  }
}
