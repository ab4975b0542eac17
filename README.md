# Silk Browser shell: a verified model of its own logic

Silk Browser is a PyQt5 desktop browser: a window with tabs, a navigation toolbar, an
address bar, a download confirmation and a visited-URL history. Rendering, networking
and navigation stacks belong to Qt's web engine. This project models the little logic
the window class `SilkBrowser` adds on top, and proves what it promises:

- `Address` — address-bar normalisation: `http://` is prepended unless the text already
  starts with `http://` or `https://`.
- `Download` — the download-confirmation handler as a function from the two dialog
  answers (the yes/no reply and the path the save dialog returns) to the commands it
  issues to the engine's download item, the effect of those commands on the item as the
  engine applies them, and the case where the handler runs several times for one request
  (it is connected once per opened tab to the profile all tabs share).
- `History` — the history list as a value: recording a URL appends it only when it is
  absent, and replaying a stream of URL-changed events yields each distinct URL once, in
  first-occurrence order.
- `Browser` — class `SilkBrowser` with the state the window updates in place: the tab
  collection and its current index, the address-bar text, the history list, a log of
  the commands sent to the engines (load, back, forward, reload), each tagged with the
  index of the receiving tab, the URL each tab's engine last reported, and the number of
  times the download handler is connected.

URLs are opaque strings: `QUrl.toString()` is taken to return the string it was built
from. The only engine state modelled is the URL each engine last reported, which changes
only through the URL-changed event.

When the user confirms a download and then dismisses the save dialog, the handler issues
neither `accept` nor `cancel`. A download request would be expected to end in exactly
one of the two; the model follows the code, and `Download.Decide` and
`Download.DecideOutcome` state that this case issues nothing, leaving the item in the
`Requested` status: the handler made no decision. QtWebEngine itself then cancels and
discards a download that no handler accepted once the signal returns; that step belongs
to the engine and is not modelled.

## Model

| member | source | states |
|---|---|---|
| `Address.Normalize` | SilkBrowser.py:142-143 | the URL always starts with `http://` or `https://`; text already starting with either is returned unchanged, other text gets `http://` prepended; the typed text is always a suffix of the URL |
| `Address.NormalizeFixedPoints` | SilkBrowser.py:142-143 | normalisation returns the text itself if and only if the text already has one of the two schemes |
| `Address.NormalizeIdempotent` | SilkBrowser.py:142-143 | normalising an already normalised URL changes nothing |
| `Address.NormalizeExamples` | SilkBrowser.py:142-143 | `example.com` becomes `http://example.com`; `https://x.com` is kept as it is |
| `Download.Decide` | SilkBrowser.py:113-121 | one handler run: for a reply other than Yes the commands are exactly one `cancel`; `accept` is issued exactly when the reply is Yes and the chosen path is non-empty, and then the commands are `setPath(path)` followed by `accept`; accept and cancel are never both issued; Yes with an empty path issues nothing; a path is only ever set to the chosen non-empty path |
| `Download.DecideStep` | SilkBrowser.py:113-121 | one handler run on an item in any state: No cancels it; Yes with a path accepts a still-requested item at that path; otherwise the item is unchanged, since the engine ignores `setPath` and `accept` once the item is accepted or cancelled |
| `Download.DecideOutcome` | SilkBrowser.py:113-121 | with one handler run on a requested item, the item ends accepted at the chosen path iff Yes and a path was chosen, cancelled (at the suggested path) iff the reply is No, and otherwise undecided at its suggested path |
| `Download.HandleAllOutcome` | SilkBrowser.py:104-121 | with one handler run per connection, the item ends cancelled iff some run got No; accepted iff no run got No and some run got a path, and then at the path of the first such run; otherwise undecided at the suggested path |
| `Download.YesThenNoCancelsAccepted` | SilkBrowser.py:104-121 | with two tabs open, Yes and a path in the first prompt then No in the second accepts the download and then cancels it |
| `History.Record` | SilkBrowser.py:192-195 | after recording, the URL is in the list; a URL already present leaves the list unchanged, an absent one is appended at the end; a list without duplicates stays without duplicates |
| `History.RecordIdempotent` | SilkBrowser.py:194 | recording the same URL twice gives the same list as recording it once |
| `History.ReplayGrows` | SilkBrowser.py:194-195 | over any stream of URL-changed events the old list is kept as a prefix, no duplicate appears, and the list holds exactly the old URLs and the reported ones |
| `History.ReplayFromEmpty` | SilkBrowser.py:192-195 | from an empty history, any event stream yields each distinct URL exactly once, ordered by first occurrence in the stream |
| `History.ReplayExample` | SilkBrowser.py:192-195 | the events a.com, b.com, a.com leave the history `[a.com, b.com]` |
| `Browser.SilkBrowser.CurrentBrowser` | SilkBrowser.py:148-150 | a current engine exists exactly when the tab widget has tabs, and it is the one of the current tab |
| `Browser.SilkBrowser.constructor` | SilkBrowser.py:29-82 | the window starts with one blank tab, current, an empty address bar and an empty history, having sent one load of `about:blank`, with the engine at `about:blank` and the download handler connected once |
| `Browser.SilkBrowser.NewTab` | SilkBrowser.py:84-104 | a tab titled "New Tab" is appended, becomes current, and its engine is told to load `about:blank`; the download handler is connected once more; the address bar and history are unchanged |
| `Browser.SilkBrowser.DownloadRequested` | SilkBrowser.py:104-121 | a download request runs the handler once per connection, one per opened tab; the item ends cancelled iff some run got No, and if accepted it is at the path of the first run that chose one |
| `Browser.SilkBrowser.ToCurrent` | SilkBrowser.py:123-136 | a navigation command goes to the current tab's engine, and nothing is sent when there is no current engine |
| `Browser.SilkBrowser.GoBack` | SilkBrowser.py:123-126 | back goes to the current engine; with none, nothing changes |
| `Browser.SilkBrowser.GoForward` | SilkBrowser.py:128-131 | forward goes to the current engine; with none, nothing changes |
| `Browser.SilkBrowser.ReloadPage` | SilkBrowser.py:133-136 | reload goes to the current engine; with none, nothing changes |
| `Browser.SilkBrowser.NavigateToUrl` | SilkBrowser.py:138-146 | empty address-bar text issues no load; non-empty text issues one load of its normalised URL, to the current engine, only when one exists |
| `Browser.SilkBrowser.UpdateUrlBar` | SilkBrowser.py:152-154 | the address bar shows the reported URL |
| `Browser.SilkBrowser.TrackHistory` | SilkBrowser.py:192-195 | the history becomes `History.Record` of the old history and the URL, and stays free of duplicates |
| `Browser.SilkBrowser.UrlChanged` | SilkBrowser.py:99-101 | a URL change from any tab's engine, current or not, updates that engine's URL, the address bar and the history, which then holds the URL |
| `Browser.SilkBrowser.TabChanged` | SilkBrowser.py:156-160 | the address bar shows the URL of the current tab's engine, if there is one; otherwise it is unchanged |
| `Browser.SilkBrowser.SetCurrentIndex` | SilkBrowser.py:97 | the tab widget's switch: a valid index becomes current, an invalid one is ignored |
| `Browser.SilkBrowser.ClickTab` | SilkBrowser.py:32 | a tab-bar click runs the handler before the switch: the address bar shows the URL of the tab current before the click, and the clicked tab becomes current |
| `Browser.SilkBrowser.SwitchTab` | SilkBrowser.py:156-160 | switching first and refreshing after: the address bar shows the URL of the newly current tab |
| `Browser.ClickShowsPreviousTab` | SilkBrowser.py:32 | with tabs at a.com and b.com, b.com current, clicking the first tab leaves the bar at b.com while a.com is current |

## Left out

- The startup connectivity probe (TCP connection to 8.8.8.8 port 53 with a 5 second timeout) and the exit with status 1 when it fails: network I/O.
- Window, toolbar, menu and stylesheet construction: GUI plumbing with no logic of its own.
- The history dialog (`show_history`) and the engine view's context menu: display only; the history they show is the `history` field.
- Save-As (`save_as`, `save_page_to_file`): an asynchronous `toHtml` callback and a file write. The callback captures the chosen path when the request is made, and nothing is requested when the save dialog returns an empty path.
- The web engine itself: navigation stacks, what loads actually do, the normalisation `QUrl` may apply to strings, download byte handling. Engine calls appear only as logged commands.
- The dialogs: their answers are parameters of `Download.Decide` and `Download.HandleAll`; the message text naming the file is not modelled.
- The engine's own cancellation of a download that no handler accepted, and what happens to an accepted download after the handlers return (transfer, completion).
- Right clicks on the tab bar, which signal a click without switching tabs.
- Tab titles are never updated by the source, so every tab keeps "New Tab".
- Browser.SilkBrowser.CurrentBrowser: with no tabs the source fails (`currentWidget()` is None before `findChild`); the model answers None instead, which is the case the navigation guards test for. With tabs present, `findChild` always finds the engine view, so the model does not represent a tab without one.
- Browser.SilkBrowser.constructor: the history is initialised after the first tab is opened. This is safe because `new_tab` sets the blank page before it connects the URL-changed slots, so a URL-changed signal sent while the tab is being set up reaches no slot; the model accordingly has no URL-changed event during construction.
- Browser.SilkBrowser.NavigateToUrl: the engine's report of the newly loaded URL, which Qt may deliver before `setUrl` returns (running the address-bar and history slots inside the call), is modelled as a separate, later `UrlChanged(current, url)`; the method itself changes only the command log.

## Findings

| source | as written | input that shows it | evidently intended | confidence | as-written member | corrected member |
|---|---|---|---|---|---|---|
| SilkBrowser.py:104 | every new tab connects the download handler again to the profile all tabs share, so a request prompts once per opened tab | two tabs; Yes with a path, then No: the download is accepted, then cancelled | one confirmation per download request | medium; not executed | `Download.YesThenNoCancelsAccepted` | `Download.DecideOutcome` |
| SilkBrowser.py:32 | the address bar is refreshed on the tab-bar click, which Qt signals before switching tabs | tabs at a.com and b.com, b.com current; click the first tab: the bar shows b.com | the bar shows the URL of the tab switched to | medium; not executed | `Browser.ClickShowsPreviousTab` | `Browser.SilkBrowser.SwitchTab` |
