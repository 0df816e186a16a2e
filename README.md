# LAN attack detector: block-list bookkeeping and detection pipeline

This project models the core of a small LAN-monitoring tool. It has three programs that share one host:

- **The detection script** (`detect_ai.py`). It reads a packet capture with a packet cap and a time budget. It counts packets per source address and scores each source with a trained model. Every source whose confidence is above 0.7 is an alert. The script then blocks each alerted source: it appends the address to the block list `blocked_ip.txt`, issues a firewall add-rule command, and writes a `BLOCK` line to the action journal.
- **The response engine** (`alert_manager.py`). `block_ip_system` and `unblock_ip_system` maintain the same block list in simulate or real mode. Each call that gets past the block-list update records exactly one outcome-specific journal line. When reading or writing the list raises, the call returns the error and writes no journal line.
- **The web dashboard** (`app.py`). Its handlers `/api/block`, `/api/unblock` and `/api/blocked`, and the `/dashboard` page, act on the same block list.
- **The training labels** (`train_model.py`). `get_label` sorts packet counts into three tiers.

The host is a `Store.Host` object with three fields:

- the block-list file, as its raw text (`None` when the file does not exist);
- the action journal, as a sequence of lines;
- the firewall, as the sequence of rule commands it was asked to run.

A reader of the block list sees `Store.Listed`: Python's `[x.strip() for x in f if x.strip()]` over a file opened in text mode, where `\r\n` and a lone `\r` are read as `\n`. Keeping the raw text makes line breaks observable. Each state-changing operation is an imperative method on the host. The response engine and the web handlers are also step functions on a `Store.Files` value. Each method is proved to agree with its step function, and the lemmas reason about the step functions.

Outside results become inputs:

- The wall clock is a sequence of elapsed-time readings, one per raw frame.
- The classifier is a function `score` from a packet count to a confidence.
- A firewall command ends as one of `Ok`, `NonZero` or `Raised`.
- A block-list read or write either raises or does not (`listFails`).

The modules are `Text`, `Store`, `Capture`, `Detect`, `AlertManager`, `WebApp` and `Labels`:

- `Text` covers stripping, line splitting, joining and removing an address.
- `Store` covers the shared state.
- `Capture` covers the stream and the per-source counter.
- `Detect` covers alert selection and the response loop.
- The other three modules each correspond to one source file.

The thresholds are those in the code. There is one strict cut, `confidence > 0.7`. The response loop's colours change at 0.5 and 0.8. There is no 0.4 tier and no random fallback for uninformative scores in these files.

## Model

| member | source | states |
|---|---|---|
| Text.Strip | app.py:89 | `str.strip()`: the result is empty or starts and ends with a non-whitespace character |
| Text.StripSlice | app.py:89 | `str.strip()` is a slice of the line with only whitespace before and after it |
| Text.Newlines | app.py:88-89 | universal newlines: the text a reader gets holds no `\r` |
| Text.NewlinesPlain | app.py:88-89 | a text without `\r` is read exactly as written |
| Text.NewlinesAppend | alert_manager.py:49-50 | newline translation of a text that does not end in `\r` followed by more text is the translation of each part |
| Text.NewlinesTerminated | alert_manager.py:49-50 | a file that ends in a line break is still read as ending in one |
| Text.StripWithin | app.py:89 | stripping adds no character: everything in the result was in the line, so a line without a line break strips to text without one |
| Text.LinesAppend | app.py:89 | iterating over a file whose first part ends in a line break yields the first part's lines and then the second part's |
| Text.KeepAppend | app.py:89 | the keep-if-non-blank filter distributes over concatenation, so entries keep file order |
| Text.EntriesClean | app.py:89 | every entry a reader sees is non-empty, stripped and has no line break |
| Text.EntriesOfLine | detect_ai.py:130-131 | a clean address on its own terminated line reads back as exactly that address |
| Text.EntriesCons | alert_manager.py:50-53 | a clean entry on its own line, followed by more text, reads back as that entry and then the rest's entries |
| Text.Without | alert_manager.py:50 | the entries different from the address: an entry is kept exactly when it was there and differs from the address, and none is added |
| Text.EntriesAppend | detect_ai.py:130-131 | appending to a file that ends in a line break adds the new lines' entries after the old ones |
| Text.EntriesOfTerminate | alert_manager.py:52-53 | clean entries written one per line read back as the same list |
| Text.JoinSplit | app.py:137 | `"\n".join(xs)` is every entry but the last on its own terminated line, then the last with no line break |
| Text.JoinTerminate | alert_manager.py:53 | `"\n".join(lines) + "\n"` writes each entry on its own terminated line |
| Text.EntriesOfJoin | app.py:135-137 | clean entries joined by line breaks, with none after the last, still read back as the same list |
| Text.EntriesFuse | app.py:137 | appending a line to entries joined with no final line break glues it onto the last entry |
| Text.WithoutAbsent | alert_manager.py:50 | removing an address that is not there keeps the list unchanged |
| Text.WithoutAppend | alert_manager.py:50 | removing an address keeps the relative order: it distributes over concatenation |
| Store.RuleNameInjective | detect_ai.py:132-138 | two addresses get the same `Block_` rule name exactly when they are equal, so a delete names only the rule its address's add created |
| Store.AppendedTwice | detect_ai.py:130-131 | two appends in a row leave the same file as one append of both texts |
| Store.Listed | app.py:86-90 | an absent file lists nothing; every listed entry is non-empty, stripped and on one line |
| Store.ActionName | detect_ai.py:126 | every action word is a clean one-line token |
| Store.Render | app.py:18 | every journal line written ends with a line break |
| Store.RenderedIsOneLine | alert_manager.py:11-14 | a journal line whose timestamp, address and (for a manager line) user are free of `\n` and `\r` reads back, through text-mode newline translation, as exactly one line of the journal file |
| Store.AppendAddress | detect_ai.py:130-131 | appending an address and a line break to a well-formed list adds exactly that address at the end, duplicates kept, and the list stays well-formed |
| Store.AppendAddresses | detect_ai.py:146-151 | appending several addresses one per line adds them in order |
| Capture.Carried | detect_ai.py:43-49 | only frames that parse and carry IP are kept, never more than were read |
| Capture.CarriedIsSubsequence | detect_ai.py:34-49 | the yielded frames are an order-preserving subsequence of the raw frames |
| Capture.ScanBound | detect_ai.py:34-49 | while scanning, the packets yielded so far never exceed a non-negative cap, are none for a cap of 0 or less, and are a subsequence of the frames read so far |
| Capture.StreamPackets | detect_ai.py:27-52 | yields exactly the IP frames among those scanned; at most the cap, none for a cap of 0 or less; no stop check fired before the frame where scanning ended; time-up, cap-reached and end of file each mean what they say |
| Capture.Occurrences | detect_ai.py:84 | a count is positive exactly for an address that occurs, and never exceeds the number of packets |
| Capture.FirstSeen | detect_ai.py:86 | the row order holds exactly the addresses seen |
| Capture.FirstSeenDistinct | detect_ai.py:86 | the row order lists each address once |
| Capture.SourcesOfCarried | detect_ai.py:83-84 | when every packet carries IP, there is one source per packet |
| Capture.CountNew | detect_ai.py:83-84 | counting a source not yet in the counter appends it to the row order with count 1, and keeps order, keys, counts and total in step with the sources seen |
| Capture.CountAgain | detect_ai.py:83-84 | counting a source already in the counter leaves the row order alone, raises its count by one, and keeps counts and total in step with the sources seen |
| Capture.TallyCounted | detect_ai.py:81-84 | counting packet by packet gives, for every capture, the first-occurrence row order, one key per order entry, each count equal to that source's occurrences, and counts summing to the number of sources |
| Capture.CountedMeans | detect_ai.py:81-86 | a finished count has a key exactly for each source seen, with its number of occurrences, and a row order without repeats |
| Capture.CountSources | detect_ai.py:81-84 | the loop builds the counter packet by packet: the counter has a key exactly for each source seen, its count is the number of packets from that source, the row order is first occurrence with no repeats, and the counts sum to the number of packets |
| Detect.TableRows | detect_ai.py:86-95 | the table lists each source once, in first-seen order, with the number of packets it sent and the model's score of that number; a source has a row exactly when it sent an IP packet |
| Detect.AlertedExactly | detect_ai.py:99-109 | an address is alerted exactly when it sent packets and its packet count scores above 0.7 |
| Detect.Alerts | detect_ai.py:99-109 | a row is an alert exactly when it is in the table with confidence strictly above 0.7; there are never more alerts than rows |
| Detect.AlertsInOrder | detect_ai.py:109 | the alerts keep table order |
| Detect.AlertNeverGreen | detect_ai.py:149 | an alert row is never printed green, and is red exactly when its confidence is at least 0.8 |
| Detect.LogAction | detect_ai.py:122-126 | one journal line is appended and nothing else changes |
| Detect.BlockIp | detect_ai.py:129-134 | appends the address to the block list, records the add-rule command and one `BLOCK` line, whatever the firewall does |
| Detect.UnblockIp | detect_ai.py:137-140 | leaves the block list untouched, records the delete-rule command and one `UNBLOCK` line |
| Detect.RespondedList | detect_ai.py:146-151 | responding to no addresses changes nothing; otherwise the block list gets the addresses appended one per line |
| Detect.RespondedListed | detect_ai.py:146-151 | responding to clean addresses on a well-formed list keeps it well-formed and adds the addresses in order, duplicates kept |
| Detect.RespondedJournal | detect_ai.py:133 | responding journals one `BLOCK` line per address, in order, after the existing lines |
| Detect.RespondedFirewall | detect_ai.py:132 | responding issues one add-rule command per address, in order, after the existing commands |
| Detect.NoGreen | detect_ai.py:149 | when every row is above 0.7, no colour printed is green |
| Detect.Respond | detect_ai.py:143-154 | the loop leaves the host as blocking each alert row's address once, in row order: a well-formed list of clean addresses gains every alerted address in order, duplicates kept; one `BLOCK` line and one add-rule command per row; one colour per row by tier, never green for alerts |
| Detect.RunDetection | detect_ai.py:68-154 | the whole run: the packets are the IP frames of the scanned prefix, at most 200000, with the stream's time and cap stop rules; the table has one row per source in first-seen order with its count and score; an address is alerted and blocked exactly when it sent packets and its count scores above 0.7; the host ends as after blocking each alerted address in order; with no alerts, or an empty capture, nothing on the host changes |
| AlertManager.LogAction | alert_manager.py:8-14 | one journal line naming the user, action and address is appended; nothing else changes |
| AlertManager.BlockIpSystem | alert_manager.py:16-42 | performs the block step: list write, then the simulated or real firewall path with its single journal line and reply |
| AlertManager.UnblockIpSystem | alert_manager.py:44-73 | performs the unblock step: rewrite of an existing list, then the simulated or real firewall path with its single journal line and reply |
| AlertManager.BlockEffects | alert_manager.py:19-42 | a failed list write changes nothing and fails; otherwise the address is appended, exactly one journal line records the outcome, and an add-rule command is issued only in real mode |
| AlertManager.BlockOutcomeTable | alert_manager.py:26-42 | `ok` holds exactly for simulate or exit status 0, and the four outcomes (simulated, 0, non-zero, exception) map one-to-one to journal actions |
| AlertManager.UnblockOutcomeTable | alert_manager.py:57-73 | the same for unblocking: `ok` exactly for simulate or exit status 0, and the four outcomes map one-to-one to the journal actions `SIMULATED_UNBLOCK`, `UNBLOCK`, `UNBLOCK_FAILED`, `UNBLOCK_ERROR` |
| AlertManager.BlockAppends | alert_manager.py:21-22 | after a successful write the list is the old list plus the address, duplicates kept |
| AlertManager.RewriteReadsBack | alert_manager.py:47-53 | the rewritten list reads back as the old entries minus every occurrence of the address, in order; it stays well-formed; an absent file stays absent |
| AlertManager.UnblockEffects | alert_manager.py:47-73 | a failed read or write changes nothing and fails; otherwise the address is gone, exactly one journal line is added, a delete-rule command is issued only in real mode, and `ok` holds for simulate or exit status 0 |
| AlertManager.UnblockAbsent | alert_manager.py:50-53 | unblocking an unlisted address leaves the listed entries unchanged |
| AlertManager.RewriteIdempotent | alert_manager.py:47-53 | rewriting twice writes the same text as rewriting once |
| AlertManager.UnblockTwice | alert_manager.py:44-53 | unblocking twice leaves the same block list as unblocking once |
| AlertManager.BlockThenUnblock | alert_manager.py:16-53 | block then unblock of an address leaves it unlisted and the other entries as before |
| AlertManager.BlockThenUnblockRecords | alert_manager.py:16-73 | block then unblock journals the two lines, block first; in real mode the delete command names the rule the add command created |
| WebApp.LogAction | app.py:15-18 | one journal line with the action, address and simulate flag is appended; nothing else changes |
| WebApp.ApiBlock | app.py:93-119 | performs the block handler's step: refusal, journal line, list append, firewall call and reply |
| WebApp.ApiUnblock | app.py:122-149 | performs the unblock handler's step: refusal, journal line, list rewrite with no final line break, firewall call and reply |
| WebApp.ApiBlocked | app.py:84-90 | a server error exactly when the file exists and reading it raises; otherwise the listed entries, none when the file is absent, every one stripped and non-empty |
| WebApp.ShowDashboard | app.py:35-41 | an error page exactly when the block list exists and reading it raises; otherwise the block list with the same parse, and the no-data page exactly when there are neither alerts nor listed addresses |
| WebApp.RejectedChangesNothing | app.py:99-100 | a missing or empty address gets `ok: False` with no journal line, no list change and no firewall command |
| WebApp.LogsFirstAndAlwaysOk | app.py:102-119 | with an address, the journal line is written even when the list update raises; once the list is updated the answer is `ok` whatever the firewall did |
| WebApp.SimulateByDefault | app.py:97-117 | without `simulate` no firewall command is issued, and the block answer is the simulated one |
| WebApp.FirewallCommands | app.py:94-147 | in simulate mode, given or defaulted, neither handler issues a firewall command; in real mode, once the list update went through, block issues exactly the add rule and unblock exactly the delete rule named `Block_<ip>`; a rejected request or a failed list update issues none |
| WebApp.ApiBlockAppends | app.py:105-106 | a block adds the address after the earlier entries, duplicates kept |
| WebApp.UnjoinedReadsBack | app.py:133-137 | the rewritten list reads back as the old entries minus the address, but no longer ends with a line break when entries remain |
| WebApp.JoinEndsWithEntry | app.py:137 | the joined text of clean entries ends in a character of the last entry, not a line break |
| WebApp.UnblockThenBlockFuses | app.py:105-137 | unblock then block, with entries remaining: the new address is glued onto the last remaining entry and the entry count does not grow |
| WebApp.FusedExample | app.py:137 | 10.0.0.1 and 10.0.0.2 listed; unblock 10.0.0.2, block 10.0.0.3; the reader sees the single entry `10.0.0.110.0.0.3` |
| WebApp.UnblockThenBlockSeparate | app.py:137 | with a final line break the list stays well-formed, and unblock then block lists the remaining entries and then the new address |
| Labels.GetLabel | train_model.py:30-36 | the label is 0, 1 or 2 |
| Labels.LabelBands | train_model.py:31-36 | label 0 exactly below 800, label 1 exactly from 800 below 1500, label 2 exactly from 1500 |
| Labels.LabelMonotone | train_model.py:30-36 | a larger packet count never gets a lower label |

## Findings

| source | as written | input that shows it | evidently intended | confidence | as-written member | corrected member |
|---|---|---|---|---|---|---|
| app.py:137 | `api_unblock` writes the remaining entries joined by line breaks with no line break after the last, and `api_block` then appends `ip + "\n"` to that text | list `10.0.0.1`, `10.0.0.2`; unblock `10.0.0.2`; block `10.0.0.3`: `/api/blocked` returns `["10.0.0.110.0.0.3"]` | write a final line break when entries remain, as `alert_manager.py:53` does, so the next block lists the address as its own entry | not executed | WebApp.UnblockThenBlockFuses | WebApp.UnblockThenBlockSeparate |

`WebApp.ApiUnblock` models the handler as written. `WebApp.ApiUnblockCorrectedStep` is the corrected step. It writes the remaining entries as `AlertManager.Rewrite` does.

## Left out

- Packet parsing (scapy's `Ether`, the `IP` layer, `RawPcapReader`). A frame is a record saying whether it parses and what its IP source is, if any.
- The `rdpcap` fallback when the streaming reader raises (detect_ai.py:76-79). It is a foreign whole-file parse outside the caps.
- Missing-capture and interrupt exits, model loading and its failure exit (detect_ai.py:56-61, 70-75). These are process exits with no model state.
- The wall clock. It is the `elapsed` input of `Capture.StreamPackets`, one reading per raw frame. `Capture.StreamPackets` takes the cap and the time limit as parameters; `Detect.RunDetection` passes the script's 200000 and 20 seconds.
- The classifier, `predict_proba` and the `np.random.rand` branch (detect_ai.py:93-97). The confidence of a row is the `score` input applied to its count. A prediction that raises is caught by `except Exception: exit()` (detect_ai.py:104-106), which ends the run before any alert is logged or any address blocked; `score` is total, so the model has no such path.
- Writing the alert CSV (detect_ai.py:110-116), progress and status printing, and `analyze_new_pcap` (detect_ai.py:157-163). These are output only or shell-outs.
- Timestamps. Journal lines carry no timestamp. `Store.Render` takes one as an opaque string.
- Store.Render: states only that each rendered line ends with a line break. The rest is the three formats, written out in its body.
- The message text of replies. `AlertManager.Reply` and `WebApp.ApiReply` keep the kind of message, not the netsh output or exception text.
- Failure of the journal write itself. In `alert_manager.py` such an exception inside the firewall `try` would turn into a `*_ERROR` line attempt. Every journal append is modelled as succeeding.
- AlertManager.UnblockIpSystem: a failure between truncating the file and writing it would leave an empty file. The model treats a read or write failure as leaving the file unchanged.
- WebApp.ApiUnblock: `open(BLACKLIST_FILE, "w")` (app.py:136-137) truncates the file before writing, so a failure in between would leave an empty file. The `ServerError` branch leaves the file unchanged instead.
- Failures of the block-list writes in `detect_ai.py`. The script does not catch them.
- Flask routing, JSON parsing, templates and file upload (app.py:21-81, 152-154), including the NaN/infinity clean-up of alert records (app.py:30-33, 53-56). `/dashboard` takes only whether any alerts exist, as `haveAlerts`.
- JSON values other than a string for `ip` or a boolean for `simulate`. Python's truthiness of other values is not modelled.
- The training data generation and model fitting in `train_model.py`. These are random and foreign.
- Character encodings. `alert_manager.py` opens the block list as UTF-8 (alert_manager.py:21, 49, 51); `app.py` and `detect_ai.py` use the platform default, an ANSI code page on Windows. The file is modelled as characters that every program decodes the same way, which holds for ASCII addresses; `Text.Clean` admits any non-ASCII character, and an address that one program cannot decode, or decodes differently, is not modelled.
- Concurrent writers to the shared files. The model assumes a single writer.
- Newline translation on writing. Reading turns `\r\n` and a lone `\r` into `\n` (`Text.Newlines`), so an address written with a `\r` inside reads back as two entries. Writes are modelled as writing `\n` as is; on Windows text mode writes `\r\n`, which reading turns back into `\n`. The lemmas about appending an address are stated for clean addresses, which hold neither `\n` nor `\r`.
