/**
 * The state a download run works on, as a value, and the relations that say what one
 * turn of the loop and a whole walk over the work list do to it. The class in `App`
 * proves its methods against these relations; the lemmas here chain them.
 */
module RunState {
  import opened EntryFilter
  import opened WorkItems
  import opened Signals
  import opened Worker

  /** The texts the status line shows. */
  datatype Status = Ready | Downloading | Paused | DownloadingFile(name: string) | DownloadCancelled | DownloadCompleted

  /**
   * The window as far as a run changes it: the two events, the files written, the URLs
   * requested, the progress bar's value, the status line and the run marker.
   */
  datatype Snapshot = Snapshot(flags: Flags, written: seq<string>, fetched: seq<string>, progress: int,
                               status: Status, running: bool)

  /**
   * The flag reads of one turn for item `i` of a run over `n` items, entered at read `k`
   * with flags `f` and left at read `k'` with flags `g`: the same steps as `Exec` from the
   * cancel read of item `i`, to the next item's cancel read or to the end of the run.
   */
  ghost predicate ItemSteps(env: Env, n: nat, i: nat, k: nat, f: Flags, more: bool, stop: Stop, k': nat, g: Flags)
    requires i < n
  {
    && (more ==> Exec(env, n, CheckCancel, i, k, f) == Exec(env, n, CheckCancel, i + 1, k', g))
    && (!more ==> Exec(env, n, CheckCancel, i, k, f) == Outcome(stop, k', g))
  }

  /**
   * What one turn for item `i`, whose URL is `url` and whose file name is `name`, does to
   * the window, from state `s` to state `t`, with the loop's file counter going from `c`
   * to `c'`: a stop names item `i` and is a cancel, a stall, a space stop or a failed
   * fetch; the URL is requested when the fetch is attempted, and the file written, named
   * in the status and counted (the counter goes up by one and the progress bar shows it)
   * only when the fetch succeeds.
   */
  ghost predicate ItemData(url: string, name: string, i: nat, s: Snapshot, c: nat, more: bool, stop: Stop,
                           t: Snapshot, c': nat) {
    && (!more ==> (stop.Cancelled? || stop.Stalled? || stop.OutOfSpace? || stop.FetchFailed?) && stop.at == i)
    && t.written == (if more then s.written + [name] else s.written)
    && t.fetched == (if more || stop.FetchFailed? then s.fetched + [url] else s.fetched)
    && c' == (if more then c + 1 else c)
    && t.progress == (if more then c' else s.progress)
    && t.running == s.running
    && (more ==> t.status == DownloadingFile(name))
    && (!more && stop.Cancelled? ==> t.status == DownloadCancelled)
    && (!more && stop.Stalled? ==> t.status == Paused)
    && (!more && stop.FetchFailed? ==> t.status == s.status || t.status == Paused)
  }

  /**
   * The walk over items with file names `names` and URLs `urls`, from state `s0`, has
   * written items `0 .. i - 1` and is at item `i` in state `s`.
   */
  ghost predicate WalkedTo(names: seq<string>, urls: seq<string>, s0: Snapshot, i: nat, s: Snapshot) {
    && |urls| == |names|
    && i <= |names|
    && s.written == s0.written + names[..i]
    && s.fetched == s0.fetched + urls[..i]
    && s.progress == (if i == 0 then s0.progress else i)
    && s.status == (if i == 0 then s0.status else DownloadingFile(names[i - 1]))
    && s.running == s0.running
  }

  /**
   * The walk from `s0`, whose run ends as `o` says, has left its loop in state `s` because
   * it reached the end or ran out of space, and has yet to mark the run completed.
   */
  ghost predicate WalkEnded(names: seq<string>, urls: seq<string>, s0: Snapshot, o: Outcome, s: Snapshot) {
    var done := Processed(o.stop, |names|);
    && (o.stop.Finished? || o.stop.OutOfSpace?)
    && |urls| == |names|
    && done <= |names|
    && s.flags == o.flags
    && s.written == s0.written + names[..done]
    && s.fetched == s0.fetched + urls[..done]
    && s.progress == (if done == 0 then s0.progress else done)
    && s.running == s0.running
  }

  /**
   * The state `s` a walk over items with file names `names` and URLs `urls` leaves behind,
   * starting from state `s0`, when its run ends as `o` says: the files written are those
   * of the items before the stopping point, the URLs requested also include the item whose
   * fetch failed; the progress bar shows the number of files written; a completed or
   * out-of-space run clears the run marker and says so, a cancelled one says so but leaves
   * the marker set, a stalled one shows "Paused...", and a failed fetch leaves the status
   * the item's wait or the previous file left.
   */
  ghost predicate WalkLeaves(names: seq<string>, urls: seq<string>, s0: Snapshot, o: Outcome, s: Snapshot) {
    var stop := o.stop;
    var done := Processed(stop, |names|);
    var tried := if stop.FetchFailed? then done + 1 else done;
    && |urls| == |names|
    && tried <= |names|
    && s.flags == o.flags
    && s.written == s0.written + names[..done]
    && s.fetched == s0.fetched + urls[..tried]
    && s.progress == (if done == 0 then s0.progress else done)
    && s.running == (if stop.Finished? || stop.OutOfSpace? then false else s0.running)
    && (stop.Finished? || stop.OutOfSpace? ==> s.status == DownloadCompleted)
    && (stop.Cancelled? ==> s.status == DownloadCancelled)
    && (stop.Stalled? ==> s.status == Paused)
    && (stop.FetchFailed? ==> s.status == Paused || s.status == if done == 0 then s0.status else DownloadingFile(names[done - 1]))
  }

  /**
   * A walk over `work` (fetched relative to `base`) from `s0` ends with `stop`, the
   * outcome of its `Run`, and leaves the window in state `s`.
   */
  ghost predicate WalkEffect(env: Env, base: string, work: seq<string>, s0: Snapshot, stop: Stop, s: Snapshot) {
    var o := Run(env, |work|, s0.flags);
    stop == o.stop && WalkLeaves(ItemNames(base, work), ItemUrls(base, work), s0, o, s)
  }

  /** Before the first item nothing has been written or requested. */
  lemma WalkStarts(names: seq<string>, urls: seq<string>, s0: Snapshot)
    requires |urls| == |names|
    ensures WalkedTo(names, urls, s0, 0, s0)
  {
    assert s0.written + names[..0] == s0.written;
    assert s0.fetched + urls[..0] == s0.fetched;
  }

  /** A turn that writes item `i` brings the walk to item `i + 1`. */
  lemma WalkSteps(names: seq<string>, urls: seq<string>, s0: Snapshot, i: nat, s: Snapshot, stop: Stop, t: Snapshot,
                  c': nat)
    requires WalkedTo(names, urls, s0, i, s) && i < |names|
    requires ItemData(urls[i], names[i], i, s, i, true, stop, t, c')
    ensures WalkedTo(names, urls, s0, i + 1, t)
  {
    assert names[..i + 1] == names[..i] + [names[i]];
    assert urls[..i + 1] == urls[..i] + [urls[i]];
  }

  /** A turn that stops item `i` for a cancel, a stall or a failed fetch ends the walk. */
  lemma WalkHalts(names: seq<string>, urls: seq<string>, s0: Snapshot, o: Outcome, i: nat, s: Snapshot,
                  stop: Stop, t: Snapshot, c': nat)
    requires WalkedTo(names, urls, s0, i, s) && i < |names|
    requires ItemData(urls[i], names[i], i, s, i, false, stop, t, c') && !stop.OutOfSpace?
    requires o.stop == stop && o.flags == t.flags
    ensures WalkLeaves(names, urls, s0, o, t)
  {
    assert Processed(stop, |names|) == i;
    if stop.FetchFailed? {
      assert urls[..i + 1] == urls[..i] + [urls[i]];
    }
  }

  /** A turn that finds too little space for item `i` leaves the loop with items `0 .. i - 1` written. */
  lemma WalkRunsOutOfSpace(names: seq<string>, urls: seq<string>, s0: Snapshot, o: Outcome, i: nat, s: Snapshot,
                           stop: Stop, t: Snapshot, c': nat)
    requires WalkedTo(names, urls, s0, i, s) && i < |names|
    requires ItemData(urls[i], names[i], i, s, i, false, stop, t, c') && stop.OutOfSpace?
    requires o.stop == stop && o.flags == t.flags
    ensures WalkEnded(names, urls, s0, o, t)
  {
    assert Processed(stop, |names|) == i;
  }

  /**
   * One turn of the walk, entered with the file counter at `i`, whatever its outcome: a
   * written item brings the walk to the next item; a space stop leaves the loop; any
   * other stop ends the walk.
   */
  lemma WalkTurn(names: seq<string>, urls: seq<string>, s0: Snapshot, o: Outcome, i: nat, s: Snapshot,
                 more: bool, stop: Stop, t: Snapshot, c': nat)
    requires WalkedTo(names, urls, s0, i, s) && i < |names|
    requires ItemData(urls[i], names[i], i, s, i, more, stop, t, c')
    requires !more ==> o.stop == stop && o.flags == t.flags
    ensures more ==> WalkedTo(names, urls, s0, i + 1, t)
    ensures !more && stop.OutOfSpace? ==> WalkEnded(names, urls, s0, o, t)
    ensures !more && !stop.OutOfSpace? ==> WalkLeaves(names, urls, s0, o, t)
  {
    if more {
      WalkSteps(names, urls, s0, i, s, stop, t, c');
    } else if stop.OutOfSpace? {
      WalkRunsOutOfSpace(names, urls, s0, o, i, s, stop, t, c');
    } else {
      WalkHalts(names, urls, s0, o, i, s, stop, t, c');
    }
  }

  /** Reaching the cancel read after the last item leaves the loop with every item written. */
  lemma WalkReachesEnd(names: seq<string>, urls: seq<string>, s0: Snapshot, o: Outcome, s: Snapshot)
    requires WalkedTo(names, urls, s0, |names|, s)
    requires o.stop == Finished && o.flags == s.flags
    ensures WalkEnded(names, urls, s0, o, s)
  {
  }

  /** Marking the run completed after the loop gives the state the walk promises. */
  lemma WalkCompletes(names: seq<string>, urls: seq<string>, s0: Snapshot, o: Outcome, s: Snapshot)
    requires WalkEnded(names, urls, s0, o, s)
    ensures WalkLeaves(names, urls, s0, o, s.(running := false, status := DownloadCompleted))
  {
  }

  /**
   * What the end state of a walk says: the progress bar counts the files written (once
   * there is one) and never passes the length of the work list; the list is fully written
   * exactly when the run finished; the i-th new file is named after the i-th item; every
   * item written had space and was fetched; a space stop leaves items unwritten but still
   * reports completion; a cancel leaves the cancel event clear and requests nothing for
   * the item it stopped at.
   */
  lemma WalkCounts(env: Env, base: string, work: seq<string>, s0: Snapshot, stop: Stop, s: Snapshot)
    requires WalkEffect(env, base, work, s0, stop, s)
    ensures |s0.written| <= |s.written| <= |s0.written| + |work|
    ensures |s.written| > |s0.written| ==> s.progress == |s.written| - |s0.written|
    ensures stop.Finished? <==> |s.written| == |s0.written| + |work|
    ensures forall j :: 0 <= j < |s.written| - |s0.written| ==>
      s.written[|s0.written| + j] == FileNameOf(ItemUrl(base, work[j])) &&
      env.freeSpace(j) >= MinFreeSpace && env.fetchOk(j)
    ensures stop.OutOfSpace? ==>
      |s.written| < |s0.written| + |work| && env.freeSpace(stop.at) < MinFreeSpace &&
      s.status == DownloadCompleted && !s.running
    ensures stop.Cancelled? ==>
      !s.flags.cancel && s.status == DownloadCancelled && s.fetched == s0.fetched + ItemUrls(base, work)[..stop.at]
  {
    RunStopsAtFirstFailure(env, |work|, s0.flags);
    forall j | 0 <= j < |s.written| - |s0.written| ensures s.written[|s0.written| + j] == FileNameOf(ItemUrl(base, work[j])) {
      ItemAt(base, work, j);
    }
  }
}
