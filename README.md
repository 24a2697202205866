# MRScraper downloader core in Dafny

MRScraper is a small desktop tool. It reads a No-Intro directory listing on
myrient.erista.me and downloads the files of one console that match a region. This
project models the logic behind its window (`DownloaderApp` in `main.py`):

- **The file-name filter** (`is_valid_file`). The last `/`-separated segment of an href is
  percent-decoded. It is accepted when it contains the selected region or `"(World)"`
  and none of ten excluded markers such as `(Beta)` or `(Demo)`.
- **The work list.** These are the anchors of the listing that pass the filter, in
  listing order. Only `links[1:limit]` is considered when the "Limit files" option is on.
  Each item has a URL (the href itself if it starts with `http`, otherwise the base URL
  followed by the href) and a file name (the decoded last segment of that URL).
- **The buttons.** Start checks the form and arms the two events. Cancel sets the cancel
  event. Pause toggles the pause event.
- **The download loop** that the start button runs on a worker thread. At the top of
  every item it reads the cancel event. It waits while the pause event is clear, reading
  the cancel event on every turn of the wait. It then checks the free space and fetches
  and writes the file.

The modules, in dependency order:

| file | module | contents |
|---|---|---|
| `text.dfy` | `Text` | `startswith`, substring containment, `split('/')[-1]` |
| `url.dfy` | `Url` | `quote` and `unquote` (percent-encoding, section 2.1 of RFC 3986) |
| `entry_filter.dfy` | `EntryFilter` | the file-name filter |
| `work_items.dfy` | `WorkItems` | the base URL, the work list, item URLs and file names |
| `signals.dfy` | `Signals` | the two events and the buttons acting on them |
| `worker.dfy` | `Worker` | the download loop as a pure transition function `Exec`, with its environment |
| `run_state.dfy` | `RunState` | the part of the window a run changes, as a value, and the relations one turn and a whole walk establish |
| `app.dfy` | `App` | the class `DownloaderApp`: the form, the status line, the progress bar, the events and the files written; the button handlers and the loop as methods |
| `scenarios.dfy` | `Scenarios` | a worked listing filtered for "Europe" |

## How the concurrency is modelled

The window and the worker share two `threading.Event`s. The worker only observes them
at its flag reads:

- the cancel read at the top of each item;
- the pause read that tests the `while` condition;
- the cancel read inside the pause wait.

The worker's flag reads are numbered 0, 1, 2, …. `Env.clicks[k]` is the list of
buttons pressed after read `k - 1` and before read `k`. `Exec` describes the run read by
read; it is a pure function of the environment. `DownloaderApp.Walk`, which `DownloadFiles` calls, is the
imperative loop; before each read it performs the pending presses through
`CancelDownload` and `PauseDownload`. Its outcome is proved equal to what `Run`
(that is, `Exec` from the start) describes, and its post-state to what `WalkEffect`
derives from that outcome.

Some parts of the environment are plain inputs:

- the free space before each item (`Env.freeSpace`);
- the success of each fetch (`Env.fetchOk`);
- the listing response (`Listing`);
- whether the output subdirectory already exists, the `os.path.exists` test in
  `start_download` (`outputExists`);
- the answer to the overwrite confirmation that follows it (`confirmed`).

The loop's pause wait spins until a press arrives. A run that is paused when no press
is left to come cannot end in the real program. The model ends it with the outcome
`Stalled`, which leaves both events clear. When the last press of all is a resume, the
pause read that follows sees the event set, the wait ends and the run goes on
(`Worker.ResumeAtLastPress`). How the list of presses ends does not matter: an extra
empty entry changes nothing (`Worker.RunIgnoresPadding`).

Cancel does not always win over a resume. The pause wait reads the cancel event and then
the pause event. A pause press and a cancel press that both land between those two reads
make the pause read see the event set. The item is then fetched and written, and the
cancel is only seen at the next item's cancel read. `Worker.ResumeOutrunsCancel` shows
this for a concrete sequence of presses.

## Model

| member | source | states |
|---|---|---|
| `Text.StartsWith` | main.py:190 | `s.startswith(p)`: `p` is no longer than `s` and is its prefix |
| `Text.LastSegment` | main.py:220 | `s.split('/')[-1]`: the text after the last `/` of `s`, or all of `s` when it has none |
| `Text.Contains` | main.py:228 | `sub in s` holds exactly when `sub` occurs at some position of `s` |
| `Text.SegmentStart` | main.py:220 | the last segment of a prefix starts after its last slash: no slash lies between that start and the prefix's end, and the character before the start, if any, is a slash |
| `Text.LastSegmentShape` | main.py:220 | `split('/')[-1]` is slash-free, a suffix of the string, and either the whole string or preceded by a slash |
| `Text.LastSegmentUnique` | main.py:220 | any slash-free suffix that is the whole string or follows a slash is the last segment |
| `Text.LastSegmentOfJoin` | main.py:193 | for `p + q`: a `q` containing a slash decides the last segment alone; a slash-free `q` is glued onto the last segment of `p` |
| `Text.LastSegmentAfterSlash` | main.py:190-193 | a prefix ending in `/` does not change the last segment |
| `Text.LastSegmentNoSlash` | main.py:220 | a string without a slash is its own last segment |
| `Text.LastSegmentIdempotent` | main.py:220 | taking the last segment twice gives the same as once |
| `Url.Quote` | main.py:143 | the encoding contains only unreserved characters, `/`, `%` and hex digits, and is never shorter than its input |
| `Url.Unquote` | main.py:220 | `unquote`: every `%XX` escape of a byte below 0x80 becomes that character and everything else is kept; the result is never longer than its input |
| `Url.UnquotePlain` | main.py:220 | decoding leaves a string without `%` unchanged |
| `Url.UnquoteQuote` | main.py:143 | round trip: decoding the encoding of an ASCII string gives it back |
| `Url.QuoteKeepsTrailingSlash` | main.py:143 | `/` is never escaped, so a trailing slash survives encoding |
| `EntryFilter.FileNameOf` | main.py:220 | the file name of an href: the decoded last `/`-separated segment |
| `EntryFilter.IsValidName` | main.py:221-232 | a decoded name passes when it contains the region or `(World)` and none of the ten excluded markers |
| `EntryFilter.IsValidFile` | main.py:219-232 | `is_valid_file`: the name test applied to the href's file name |
| `EntryFilter.ContainsAnyIff` | main.py:228-231 | `any(t in name for t in tags)` holds exactly when some tag occurs in the name |
| `EntryFilter.RegionTest` | main.py:221-229 | the region test passes exactly when the region or `(World)` occurs in the name |
| `EntryFilter.IsValidFileIff` | main.py:219-232 | an href is accepted exactly when its decoded last segment contains the region or `(World)` and contains none of the ten excluded markers |
| `EntryFilter.RejectsWithoutRegion` | main.py:220-229 | a name containing neither the region nor `(World)` is rejected |
| `EntryFilter.RejectsExcludedKeyword` | main.py:222-231 | a name containing any excluded marker is rejected, whatever region it carries |
| `EntryFilter.FileNameIgnoresDirectory` | main.py:220 | a directory prefix, or taking the last segment first, does not change the decoded name |
| `EntryFilter.IsValidFileDependsOnLastSegment` | main.py:220 | the decision depends only on the text after the last slash |
| `EntryFilter.EmptyRegionKeepsOnlyKeywordTest` | main.py:221-231 | with an empty region only the excluded-marker test remains |
| `EntryFilter.WorldPassesEveryRegion` | main.py:221-231 | a `(World)` name passes the region test for every region |
| `WorkItems.BaseUrl` | main.py:143 | the listing URL: the No-Intro root on myrient.erista.me followed by the percent-encoded console entry |
| `WorkItems.BaseUrlEndsWithSlash` | main.py:143 | a console entry ending in `/` gives a base URL ending in `/` |
| `WorkItems.SliceBound` | main.py:161 | a slice bound, read as Python reads it, lies within the sequence |
| `WorkItems.TailUpTo` | main.py:161 | `links[1:limit]` with Python's slice rules: from index 1 (or the end of a shorter list) up to the normalised bound, empty when the bound is not past the start |
| `WorkItems.Candidates` | main.py:160-163 | the anchors the comprehension runs over: `links[1:limit]` with the limit on, all anchors with it off |
| `WorkItems.WorkList` | main.py:160-163 | `filtered_links`: the candidates that pass `is_valid_file`, in listing order |
| `WorkItems.LimitedCandidates` | main.py:160-161 | `links[1:limit]` is a prefix of the anchors after the first; its length is `min(len-1, max(limit-1, 0))` for `limit >= 0`, and counts from the end for a negative limit |
| `WorkItems.Filter` | main.py:161-163 | a filtered list holds only elements that pass, holds every element that passes, and is no longer than its input |
| `WorkItems.FilterIsSubsequence` | main.py:161-163 | filtering preserves order: its result is a subsequence of its input |
| `WorkItems.FilterAppend` | main.py:161-163 | filtering a concatenation is the concatenation of the filtered parts |
| `WorkItems.Keep` | main.py:161-163 | the comprehension keeps only accepted hrefs, keeps every accepted one, and is no longer than its input |
| `WorkItems.LimitedWorkList` | main.py:160-161 | with the limit on, the work list is an ordered subsequence of the anchors after the first, with at most `limit - 1` items |
| `WorkItems.UnlimitedWorkList` | main.py:162-163 | with the limit off, the work list is an ordered subsequence of all anchors, and an accepted first anchor comes first |
| `WorkItems.ItemUrl` | main.py:189-191 | the URL of an item: the href itself when it starts with `http`, otherwise the base URL followed by the href |
| `WorkItems.ItemFileName` | main.py:189-193 | an absolute href, an href with a slash, or a base ending in `/` gives the href's own decoded name; otherwise the base's last segment is glued in front |
| `WorkItems.ItemAt` | main.py:189-193 | the j-th entries of the URL and name lists are item j's URL and the decoded last segment of that URL |
| `WorkItems.WrittenNamesPassFilter` | main.py:160-193 | for a console entry ending in `/`, every file name a run writes passes the filter |
| `Signals.Press` | main.py:131-140 | one press: cancel sets the cancel event; pause clears the pause event when set and sets it when clear |
| `Signals.PressAll` | main.py:131-140 | several presses applied in the order they are made |
| `Signals.PressAllCancel` | main.py:131-132 | after any presses, the cancel event is set exactly when it was set before or cancel was pressed |
| `Signals.PressAllPause` | main.py:134-140 | after any presses, the pause event is flipped exactly when pause was pressed an odd number of times |
| `Worker.Exec` | main.py:169-211 | the loop from any point, read by read: a set cancel at the top or in the wait ends the run cancelled and clears the event; a clear pause event enters the wait, which ends when a pause read sees the event set, and stalls only when it is clear with no press left to come; then the space check breaks the loop, a failed fetch ends it, and a written file moves on to the next item |
| `Worker.Run` | main.py:168-211 | the whole loop, from the first item's cancel read with the flags the run starts with |
| `Worker.ExecStopsAtFirstFailure` | main.py:169-211 | from any point of the loop, every item before the stop had space and fetched; a space stop names an item under 100 MiB; a fetch stop names an item with space whose fetch failed; a cancel leaves the cancel event clear; a stall leaves both events clear |
| `Worker.RunStopsAtFirstFailure` | main.py:168-211 | the same facts for a whole run |
| `Worker.ExecWithoutCancel` | main.py:170-187 | a run in which cancel is clear and never pressed is never cancelled |
| `Worker.ExecWithoutPause` | main.py:178-187 | a run that starts unpaused and is never paused never stalls in the pause wait |
| `Worker.ExecHonoursCancel` | main.py:170-187 | a cancel latched by read `k0` stops the run by read `k0 + 1` |
| `Worker.CancelHonoured` | main.py:170-187 | a run that makes more than `k0 + 1` reads after a cancel press before read `k0` ends cancelled |
| `Worker.UndisturbedRunFinishes` | main.py:168-214 | with the flags start leaves, no presses, space and successful fetches, a run finishes |
| `Worker.ResumeOutrunsCancel` | main.py:178-211 | paused at item 0, a resume pressed together with a cancel during the wait lets item 0 be fetched, and the run ends cancelled only at item 1 |
| `Worker.ResumeAtLastPress` | main.py:178-211 | a resume that is the last press of all, made during the wait, ends the wait: the item is fetched and the run finishes |
| `Worker.ExecIgnoresPadding` | main.py:169-211 | an extra empty entry at the end of the presses, which presses nothing, changes neither the stop nor the flags of the loop from any point, nor its number of reads unless it stalls |
| `Worker.RunIgnoresPadding` | main.py:168-211 | for a whole run, padding the presses with an empty entry changes neither the stop nor the flags left, nor the number of reads unless the run stalls |
| `App.DownloaderApp.constructor` | main.py:20-30 | the window opens with region "Europe", limit 10 (off), output "C:/", status "Ready", no run and both events clear |
| `App.DownloaderApp.StartDownload` | main.py:108-127 | start proceeds exactly when a console and an output directory are set and an existing output is confirmed; it then marks a run, shows "Downloading...", clears cancel and sets pause; otherwise nothing changes |
| `App.DownloaderApp.CancelDownload` | main.py:131-132 | cancel sets the cancel event and leaves pause alone |
| `App.DownloaderApp.PauseDownload` | main.py:134-140 | pause toggles the pause event and leaves cancel alone |
| `App.DownloaderApp.PressButtons` | main.py:131-140 | pressing buttons one after another updates the events as `PressAll` says |
| `App.DownloaderApp.AwaitResume` | main.py:178-187 | the pause wait takes the steps `Exec` takes from a pause read: it ends cancelled (showing "Download cancelled!"), or stalled (showing "Paused...") when the pause event is clear with no press left to come, or it reaches the transfer with the flags `Exec` reaches |
| `App.DownloaderApp.AwaitTurn` | main.py:170-187 | the flag reads of one item take the steps `Exec` takes from its cancel read: a cancel at the top or in the wait ends the run showing "Download cancelled!", a stall, only with the pause event clear and no press left to come, shows "Paused...", otherwise the transfer is reached with the flags `Exec` reaches |
| `App.DownloaderApp.FetchItem` | main.py:189-211 | the item's URL is requested exactly when at least 100 MiB are free; its decoded name is written and shown, the file counter goes up by one and the progress bar shows it, exactly when the request also succeeds; otherwise the stop is a space stop or a fetch failure, and the status, the counter and the progress bar are untouched |
| `App.DownloaderApp.DownloadItem` | main.py:169-211 | one iteration takes the steps `Exec` takes from the item's cancel read; it requests the URL only when space suffices, and writes the name, shows it and adds one to the file counter only when the fetch succeeds |
| `App.DownloaderApp.WalkItem` | main.py:169-211 | one iteration, entered with the file counter equal to the item's index, keeps the loop invariant tied to `Run` with the counter one higher, or leaves the loop as `WalkEnded` says, or ends the walk as `WalkLeaves` says, with the counter at the run's stopping point |
| `App.DownloaderApp.Walk` | main.py:168-217 | the loop ends with the outcome of `Run` and leaves exactly the state `WalkEffect` gives for it; its file counter `curr_file` ends as the number of items before the stopping point, at most the work list's length, equal to the number of files added, and shown by the progress bar once positive |
| `App.DownloaderApp.DownloadFiles` | main.py:142-217 | a failed listing only records its request; otherwise the output is emptied, the progress maximum becomes the work list's length, and the state is the walk's over the work list from the listing's base URL |
| `RunState.WalkStarts` | main.py:168 | before the first item the walk's state is the starting state: nothing written or requested yet |
| `RunState.WalkSteps` | main.py:169-211 | a turn that writes item `i` moves the walk to item `i + 1`: its name and URL are appended, the file counter and the progress become `i + 1` and the status names the file |
| `RunState.WalkHalts` | main.py:170-201 | a cancel, stall or failed fetch at item `i` ends the walk in the state `WalkLeaves` describes for that stop |
| `RunState.WalkRunsOutOfSpace` | main.py:195-198 | a space stop at item `i` leaves the loop with items before `i` written and nothing requested for `i` |
| `RunState.WalkTurn` | main.py:169-211 | any outcome of one turn moves the walk to the next item, leaves the loop on a space stop, or ends the walk as `WalkLeaves` says |
| `RunState.WalkReachesEnd` | main.py:169 | finishing the list leaves the loop with every item written |
| `RunState.WalkCompletes` | main.py:213-214 | a finished or space-stopped walk shows "Download completed!" and clears the run marker |
| `RunState.WalkCounts` | main.py:165-214 | the progress value equals the number of files written once there is one and never exceeds the work list; the list is fully written exactly when the run finished; the j-th file is item j's name, and it had space and fetched; a space stop leaves items unwritten but reports completion; a cancel clears the event and requests nothing for its item |
| `Scenarios.PlainNameAccepted` | main.py:219-232 | a name without `/` or `%` that contains the region and none of the markers' second characters is accepted |
| `Scenarios.PlainNameWithoutRegion` | main.py:219-229 | a name without `/` or `%` lacking the region's first character and the `W` of `(World)` is rejected |
| `Scenarios.PlainNameWithMarker` | main.py:219-231 | a name without `/` or `%` containing an excluded marker is rejected |
| `Scenarios.ParentRejected` | main.py:219-232 | the parent link `../` is rejected |
| `Scenarios.UsaRejected` | main.py:219-232 | a USA release is rejected when "Europe" is selected |
| `Scenarios.EuropeAccepted` | main.py:219-232 | a European release is accepted |
| `Scenarios.DemoRejected` | main.py:219-232 | a European demo is rejected |
| `Scenarios.KeepOnlyThird` | main.py:163 | filtering four anchors of which only the third is accepted keeps just that one |
| `Scenarios.ExampleListing` | main.py:160-163 | with the limit off, the worked listing's work list is the European release alone |

## Behaviour the model keeps

These follow `main.py` as written:

- **The first anchor is dropped only with the limit on.** `links[1:limit]` is used only
  when the "Limit files" option is on. With it off, the first anchor (usually the
  parent link, which the filter rejects anyway) is considered like any other.
- **A failed fetch leaves the status alone.** The exception from `raise_for_status` ends
  the worker thread. The status keeps whatever the item's pause wait or the previous
  file left. The run marker stays set, and "Download completed!" is not shown.
- **A cancel leaves the run marker set.** The cancel paths show "Download cancelled!"
  but do not clear `curr_downloading`; only completion does.
- **The progress value is not reset.** `curr_file` starts at 0, but the progress bar's
  value is only written after the first file, as the new count. Until then it keeps the
  previous run's value.

## Left out

- The tkinter widgets: creating the window, `toggle_limit_option`, `select_output_dir`, button enabling and labels, `update_idletasks`, the warning dialogs and `on_close`. They present state and decide nothing the model tracks. The existence test and the confirmation answer in `start_download` are parameters.
- Reading `systemlist.txt`. It only fills the console dropdown.
- HTTP and HTML parsing. The listing request gives a `Listing`: an error, or the hrefs of the table's anchors. Each file request succeeds or fails as `Env.fetchOk` says. Every URL requested is recorded in `fetched`, and no response bodies are modelled.
- The filesystem. Removing and recreating the output directory empties `written`. `shutil.disk_usage` is `Env.freeSpace`. Writing a file appends its name to `written`, so files with equal names are not merged.
- Starting the worker thread. `StartDownload` only arms the events. `DownloadFiles` is the thread's body, called separately, and the presses during a run come from `Env.clicks`.
- Button presses between a flag read and the worker's next step are modelled as landing before the next read. No read happens in between, so the outcome is the same. Presses after the run's last read, such as those during the last item's transfer, are not modelled: entries of `Env.clicks` past that read are ignored, and the flags a run leaves are those of its last read, while the real events would carry such a press past the end of the run.
- The printing of each file name to the console.
- `IntVar.get` raising on a non-numeric limit entry. The limit is an `int`.
- App.DownloaderApp.FetchItem: writing the file never fails in the model. In the program `open` raises for a name it cannot create, such as the empty name of an href ending in `/` (which an empty region lets through), and the worker thread then dies like on a failed fetch, with the URL requested and nothing written. A name in which `%2F` decodes to `/` (or, on Windows, `%5C` to `\`) is a path: through `os.path.join` it may make `open` raise (a missing subdirectory), land inside the output directory or one of its subdirectories (`./x`, `sub/x`), or escape it (an absolute name, or one starting with `../`). The model records the decoded name in `written` in every case.
- Worker.Exec: the pause wait that can never end (paused, and no press left to come) ends with `Stalled`; the real loop spins for ever.
- Url.Unquote: decodes `%XX` only for bytes below 0x80 and keeps other escapes as they are. Python decodes runs of escapes of higher bytes as UTF-8, so names with non-ASCII escapes are not modelled faithfully.
- Url.UnquoteQuote: the round trip is proved for ASCII strings only, for the same reason.
