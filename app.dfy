/**
 * The downloader window's state and the operations that change it: the start, cancel and
 * pause buttons, and the download loop the start button hands to a worker thread. The
 * listing page, the free space and each fetch's outcome are inputs; the files written are
 * recorded as the list of their names, and every URL requested as the list `fetched`.
 */
module App {
  import opened EntryFilter
  import opened WorkItems
  import opened Signals
  import opened Worker
  import opened RunState

  /** What requesting the listing page gives: an error status, or the hrefs of its table's anchors. */
  datatype Listing = ListingError | Anchors(hrefs: seq<string>)

  class DownloaderApp {
    // The form.
    var consoleUrl: string
    var region: string
    var limit: int
    var doLimit: bool
    var outputDir: string
    // What the window shows and the worker updates.
    var status: Status
    var currDownloading: bool
    var progressMax: int
    var progressValue: int
    // The two events shared with the worker.
    var cancelFlag: bool
    var pauseFlag: bool
    /** Every URL requested, in order. */
    var fetched: seq<string>
    /**
     * The names the files were written under since the output directory was last
     * recreated, in order; each is joined to the output directory's path, so a name that
     * is absolute or climbs out with `../` is recorded too.
     */
    var written: seq<string>

    function CurrentFlags(): Flags
      reads this
    {
      Flags(cancelFlag, pauseFlag)
    }

    /** The part of the window a run changes. */
    function Snap(): Snapshot
      reads this
    {
      Snapshot(CurrentFlags(), written, fetched, progressValue, status, currDownloading)
    }

    /** The window as it opens: region "Europe", limit 10 and off, output directory "C:/", both events clear. */
    constructor ()
      ensures consoleUrl == "" && region == "Europe" && limit == 10 && !doLimit && outputDir == "C:/"
      ensures status == Ready && !currDownloading && progressMax == 100 && progressValue == 0
      ensures !cancelFlag && !pauseFlag && fetched == [] && written == []
    {
      consoleUrl, region, limit, doLimit, outputDir := "", "Europe", 10, false, "C:/";
      status, currDownloading, progressMax, progressValue := Ready, false, 100, 0;
      cancelFlag, pauseFlag := false, false;
      fetched, written := [], [];
    }

    /**
     * The start button. It refuses without a console or an output directory, and, when
     * the output subdirectory exists already, unless the user confirms overwriting it.
     * Otherwise it marks a run in progress, clears the cancel event and sets the pause
     * event so that the worker, started next, runs unpaused.
     */
    method StartDownload(outputExists: bool, confirmed: bool) returns (started: bool)
      modifies this`status, this`currDownloading, this`cancelFlag, this`pauseFlag
      ensures started <==> consoleUrl != "" && outputDir != "" && (outputExists ==> confirmed)
      ensures started ==> currDownloading && status == Downloading && CurrentFlags() == Flags(false, true)
      ensures !started ==>
        currDownloading == old(currDownloading) && status == old(status) && CurrentFlags() == old(CurrentFlags())
    {
      if consoleUrl == "" {
        return false;
      } else if outputDir == "" {
        return false;
      } else if outputExists {
        if !confirmed {
          return false;
        }
      }
      currDownloading := true;
      status := Downloading;
      cancelFlag := false;
      pauseFlag := true;
      started := true;
    }

    /** The cancel button sets the cancel event. */
    method CancelDownload()
      modifies this`cancelFlag
      ensures cancelFlag
      ensures CurrentFlags() == Press(old(CurrentFlags()), CancelButton)
    {
      cancelFlag := true;
    }

    /** The pause button toggles the pause event: clear means paused. */
    method PauseDownload()
      modifies this`pauseFlag
      ensures pauseFlag == !old(pauseFlag)
      ensures CurrentFlags() == Press(old(CurrentFlags()), PauseButton)
    {
      if pauseFlag {
        pauseFlag := false;
      } else {
        pauseFlag := true;
      }
    }

    /** Presses landing between two of the worker's flag reads, one button after another. */
    method PressButtons(bs: seq<Button>)
      modifies this`cancelFlag, this`pauseFlag
      ensures CurrentFlags() == PressAll(old(CurrentFlags()), bs)
    {
      var j := 0;
      while j < |bs|
        invariant j <= |bs|
        invariant PressAll(CurrentFlags(), bs[j..]) == PressAll(old(CurrentFlags()), bs)
      {
        assert bs[j..][1..] == bs[j + 1..];
        match bs[j] {
          case CancelButton => CancelDownload();
          case PauseButton => PauseDownload();
        }
        j := j + 1;
      }
    }

    /**
     * The pause wait of item `i`, from its pause read (read number `k`): while the pause
     * event is clear it shows "Paused..." and reads the cancel event, leaving the run if
     * that is set, or if no press is left to come and the pause event is still clear. It
     * matches the model step for step: the run either ends here as `Exec` says, or goes on
     * to the transfer of item `i`.
     */
    method AwaitResume(env: Env, ghost n: nat, i: nat, k: nat) returns (halted: bool, halt: Stop, k': nat)
      requires i < n
      modifies this`status, this`cancelFlag, this`pauseFlag
      ensures halted ==> halt == Cancelled(i) || halt == Stalled(i)
      ensures halted ==> Exec(env, n, CheckPause, i, k, old(CurrentFlags())) == Outcome(halt, k', CurrentFlags())
      ensures !halted ==>
        Exec(env, n, CheckPause, i, k, old(CurrentFlags())) == Exec(env, n, Transfer, i, k', CurrentFlags())
      ensures halted && halt.Cancelled? ==> status == DownloadCancelled
      ensures halted && halt.Stalled? ==> status == Paused
      ensures !halted ==> status == old(status) || status == Paused
    {
      ghost var o := Exec(env, n, CheckPause, i, k, CurrentFlags());
      PressButtons(Clicks(env, k));
      k' := k + 1;
      while !pauseFlag
        invariant o == Exec(env, n, if pauseFlag then Transfer else WaitCancel, i, k', CurrentFlags())
        invariant status == old(status) || status == Paused
        decreases WaitMeasure(env, k'), if pauseFlag then 0 else 1
      {
        status := Paused;
        PressButtons(Clicks(env, k'));
        k' := k' + 1;
        if cancelFlag {
          cancelFlag := false;
          status := DownloadCancelled;
          return true, Cancelled(i), k';
        }
        if |env.clicks| <= k' && !pauseFlag {
          // Paused with no press left to come: the real loop waits here for ever.
          return true, Stalled(i), k';
        }
        PressButtons(Clicks(env, k'));
        k' := k' + 1;
      }
      halted, halt := false, Finished;
    }

    /**
     * The flag reads of item `i`, from its cancel read (read number `k`): a cancel seen
     * there clears the event and ends the run; otherwise the pause wait follows. The run
     * either ends here as `Exec` says, or goes on to the transfer of item `i`.
     */
    method AwaitTurn(env: Env, ghost n: nat, i: nat, k: nat) returns (halted: bool, halt: Stop, k': nat)
      requires i < n
      modifies this`status, this`cancelFlag, this`pauseFlag
      ensures halted ==> halt == Cancelled(i) || halt == Stalled(i)
      ensures halted ==> Exec(env, n, CheckCancel, i, k, old(CurrentFlags())) == Outcome(halt, k', CurrentFlags())
      ensures !halted ==>
        Exec(env, n, CheckCancel, i, k, old(CurrentFlags())) == Exec(env, n, Transfer, i, k', CurrentFlags())
      ensures halted && halt.Cancelled? ==> status == DownloadCancelled
      ensures halted && halt.Stalled? ==> status == Paused
      ensures !halted ==> status == old(status) || status == Paused
    {
      PressButtons(Clicks(env, k));
      k' := k + 1;
      if cancelFlag {
        cancelFlag := false;
        status := DownloadCancelled;
        return true, Cancelled(i), k';
      }
      halted, halt, k' := AwaitResume(env, n, i, k');
    }

    /**
     * One turn of the worker's loop, for item `i` of `work` (fetched relative to `base`),
     * from its cancel read (read number `k`), with `count` files written so far: a cancel
     * seen here or in the pause wait clears the event and ends the run; a free space under
     * 100 MiB ends the loop; a failed fetch ends the worker; a successful one writes the
     * file, names it in the status, counts it and sets the progress bar to the new count.
     * It takes the steps `Exec` takes from that read.
     */
    method DownloadItem(env: Env, base: string, work: seq<string>, i: nat, k: nat, count: nat)
      returns (more: bool, stop: Stop, k': nat, count': nat)
      requires i < |work|
      modifies this`status, this`cancelFlag, this`pauseFlag, this`progressValue, this`fetched, this`written
      ensures ItemSteps(env, |work|, i, k, old(CurrentFlags()), more, stop, k', CurrentFlags())
      ensures ItemData(ItemUrl(base, work[i]), FileNameOf(ItemUrl(base, work[i])), i, old(Snap()), count,
                       more, stop, Snap(), count')
    {
      var halted;
      halted, stop, k' := AwaitTurn(env, |work|, i, k);
      if halted {
        return false, stop, k', count;
      }
      more, stop, count' := FetchItem(env, base, work[i], i, count);
    }

    /**
     * The transfer of item `i`, whose href is `href`, with `count` files written so far: it
     * resolves the URL against `base` and names the file after the URL's decoded last
     * segment; with under 100 MiB free it stops the loop before requesting anything;
     * otherwise it requests the URL, and a failed request ends the worker, while a
     * successful one writes the file, names it in the status, adds one to the count and
     * sets the progress bar to the new count.
     */
    method FetchItem(env: Env, base: string, href: string, i: nat, count: nat) returns (more: bool, stop: Stop, count': nat)
      modifies this`status, this`progressValue, this`fetched, this`written
      ensures var url := ItemUrl(base, href);
        var name := FileNameOf(url);
        var room := env.freeSpace(i) >= MinFreeSpace;
        && (more <==> room && env.fetchOk(i))
        && (!more ==> stop == if room then FetchFailed(i) else OutOfSpace(i))
        && fetched == old(fetched) + (if room then [url] else [])
        && written == old(written) + (if more then [name] else [])
        && status == (if more then DownloadingFile(name) else old(status))
        && count' == (if more then count + 1 else count)
        && progressValue == (if more then count' else old(progressValue))
    {
      var url := ItemUrl(base, href);
      var name := FileNameOf(url);
      count' := count;
      if env.freeSpace(i) < MinFreeSpace {
        return false, OutOfSpace(i), count';
      }
      fetched := fetched + [url];
      if !env.fetchOk(i) {
        return false, FetchFailed(i), count';
      }
      status := DownloadingFile(name);
      written := written + [name];
      count' := count' + 1;
      progressValue := count';
      more, stop := true, Finished;
    }

    /**
     * One turn of `Walk`'s loop, seen against the whole walk: the walk from `s0` has
     * reached item `i`, with as many files counted, at the read from which `Exec` leads to
     * the run's outcome `o`. The turn is `DownloadItem`; after it the walk has reached item
     * `i + 1`, with one more file counted, on the way to the same outcome, or has left the
     * loop on a space stop, or has ended, with the count at the run's stopping point.
     */
    method WalkItem(env: Env, base: string, work: seq<string>, ghost names: seq<string>, ghost urls: seq<string>,
                    ghost s0: Snapshot, ghost o: Outcome, i: nat, k: nat, count: nat)
      returns (more: bool, stop: Stop, k': nat, count': nat)
      requires i < |work| && names == ItemNames(base, work) && urls == ItemUrls(base, work)
      requires Exec(env, |work|, CheckCancel, i, k, CurrentFlags()) == o
      requires WalkedTo(names, urls, s0, i, Snap()) && count == i
      modifies this`status, this`cancelFlag, this`pauseFlag, this`progressValue, this`fetched, this`written
      ensures more ==> Exec(env, |work|, CheckCancel, i + 1, k', CurrentFlags()) == o
      ensures more ==> WalkedTo(names, urls, s0, i + 1, Snap()) && count' == i + 1
      ensures !more ==> stop == o.stop && count' == Processed(stop, |work|) == i
      ensures !more && stop.OutOfSpace? ==> WalkEnded(names, urls, s0, o, Snap())
      ensures !more && !stop.OutOfSpace? ==> WalkLeaves(names, urls, s0, o, Snap())
    {
      ghost var s := Snap();
      more, stop, k', count' := DownloadItem(env, base, work, i, k, count);
      ItemAt(base, work, i);
      WalkTurn(names, urls, s0, o, i, s, more, stop, Snap(), count');
    }

    /**
     * The worker's loop over the work list `work`, whose items are fetched relative to
     * `base`, counting the files it writes in `count`. A cancelled, stalled or failed item
     * ends it where it stands; running out of space, or reaching the end, marks the run
     * completed. The count is the number of items before the stopping point: the files
     * added to the output directory, which the progress bar shows once there is one.
     */
    method Walk(env: Env, base: string, work: seq<string>) returns (stop: Stop, count: nat)
      modifies this`status, this`currDownloading, this`cancelFlag, this`pauseFlag
      modifies this`progressValue, this`fetched, this`written
      ensures WalkEffect(env, base, work, old(Snap()), stop, Snap())
      ensures count == Processed(stop, |work|) <= |work|
      ensures |written| == |old(written)| + count && (count > 0 ==> progressValue == count)
    {
      var n := |work|;
      ghost var s0 := Snap();
      ghost var o := Run(env, n, s0.flags);
      ghost var names, urls := ItemNames(base, work), ItemUrls(base, work);
      WalkStarts(names, urls, s0);
      stop, count := Finished, 0;
      var i, k := 0, 0;
      while i < n
        invariant i <= n && stop == Finished && count == i
        invariant Exec(env, n, CheckCancel, i, k, CurrentFlags()) == o
        invariant WalkedTo(names, urls, s0, i, Snap())
      {
        var more, halt, k';
        more, halt, k', count := WalkItem(env, base, work, names, urls, s0, o, i, k, count);
        if !more {
          if halt.OutOfSpace? {
            stop := halt;
            break;
          }
          return halt, count;
        }
        i, k := i + 1, k';
      }
      if stop.Finished? {
        WalkReachesEnd(names, urls, s0, o, Snap());
      }
      ghost var e := Snap();
      WalkCompletes(names, urls, s0, o, e);
      currDownloading := false;
      status := DownloadCompleted;
      assert Snap() == e.(running := false, status := DownloadCompleted);
    }

    /**
     * The worker the start button launches. It requests the listing; if that fails nothing
     * else happens. Otherwise it empties the output directory, builds the work list from
     * the anchors, sets the progress bar's maximum to its length and walks it. The buttons
     * pressed while it runs come from `env.clicks`.
     */
    method DownloadFiles(listing: Listing, env: Env) returns (stop: Stop)
      modifies this`status, this`currDownloading, this`cancelFlag, this`pauseFlag
      modifies this`progressMax, this`progressValue, this`fetched, this`written
      ensures listing.ListingError? ==>
        && stop == ListingFailed
        && Snap() == old(Snap()).(fetched := old(fetched) + [BaseUrl(consoleUrl)])
        && progressMax == old(progressMax)
      ensures listing.Anchors? ==>
        var work := old(WorkList(listing.hrefs, region, doLimit, limit));
        var base := old(BaseUrl(consoleUrl));
        && progressMax == |work|
        && WalkEffect(env, base, work, old(Snap()).(written := [], fetched := old(fetched) + [base]), stop, Snap())
    {
      var base := BaseUrl(consoleUrl);
      fetched := fetched + [base];
      if listing.ListingError? {
        return ListingFailed;
      }
      written := [];
      var work := WorkList(listing.hrefs, region, doLimit, limit);
      progressMax := |work|;
      var count;
      stop, count := Walk(env, base, work);
    }
  }
}
