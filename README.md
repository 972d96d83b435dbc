# Doubao video plugin: verified model of its decision logic

`plugin.py` is a chat-bot plugin. It asks the Doubao (Volcengine Ark) API
to generate a video and polls the task until it finishes. It downloads the
result, sends it to the chat through a local Napcat gateway or one of the
host's send methods, and keeps a JSON catalog of the videos it stored that
the list and play commands use.

This project models the deterministic logic inside that glue. I/O is
replaced by values:
- the clock is an integer number of milliseconds passed in;
- each HTTP reply is a datatype value;
- the JSON catalog file is a `seq<Entry>` field;
- file existence and the host's optional send methods are booleans.

Modules, one per file:

- `Wrappers`: `Option`.
- `Text`: the string operations the code relies on:
  - `rstrip`/`strip`;
  - substring search, `str.join`, `str(int)`;
  - `int()` on a decimal string (sign and `_` separators).
- `Catalog`: `VideoMetadataManager`, as the class `MetadataManager` over `entries: seq<Entry>`.
  - Next id is max + 1.
  - Appending is in place.
  - `GetVideoById` and `GetVideoByName` are first-match loops.
  - Listing is a stable sort, newest first.
- `Progress`: `ProgressBar`. The class keeps the byte count and the time of the last drawing. Drawings are throttled to one per 100 ms. The fill is an integer and the bar is made of cells.
- `RemoteJob`:
  - the API base normalisation shared by task creation and polling;
  - the status switch;
  - the six-field result-URL probe;
  - the sleep-then-query polling loop, run over a script of replies (`PollTaskStatus`, proved against the function `Poll`).
- `Delivery`:
  - chat-context resolution (`message_info`, then `chat_stream`);
  - the Napcat request;
  - the host fallback chain;
  - `_send_video_result`.
- `Commands`:
  - `_validate_config`;
  - the download's file-name sanitiser;
  - `/选择模型` model selection;
  - the list replies of `/豆包视频列表` and `/豆包模型列表`;
  - `/播放豆包`.

Two behaviours of the code that a reading of its comments would not suggest, both modelled as written:

- Polling checks the deadline before each sleep and after each query, but not between a sleep and the query that follows it. With a 5 s deadline and a 30 s interval, the code therefore still makes exactly one status query, and it returns a URL if that first answer is a success. It does not fail without querying. `RemoteJob.ShortDeadlineQueriesOnce` proves this.
- In the `chat_stream` branch the user is consulted through `elif`. A truthy `group_info` with an empty `group_id` therefore hides the stream's `user_info`. `Delivery.StreamGroupInfoHidesStreamUser` proves this.

## Model

| member | source | states |
|---|---|---|
| Catalog.StorageFilename | plugin.py:124 | the stored name is `{id}.mp4`: it ends in `.mp4` and, for a non-negative id, its stem is decimal digits with a leading `0` only for id 0 |
| Catalog.StorageFilenameNamesId | plugin.py:124 | `int()` of the stem of a stored name gives the id back, for every id |
| Catalog.NewEntry | plugin.py:118-125 | the new record has the given id, prompt, model id, original name and creation time, and file name `StorageFilename(id)` |
| Catalog.AppendedEntryIsFound | plugin.py:115-143 | after appending a new record, a name search for its prompt or its original file name matches it, and finds it first when no older record matches |
| Catalog.MaxId | plugin.py:113 | the maximum id is an upper bound of every id and is the id of some record |
| Catalog.NextId | plugin.py:108-113 | 1 for an empty catalog; otherwise strictly above every id and equal to some id plus one (max + 1) |
| Catalog.MetadataManager.constructor | plugin.py:84-98 | the manager starts from the stored records |
| Catalog.MetadataManager.GetNextVideoNumber | plugin.py:108-113 | returns `NextId` of the stored records, above every stored id |
| Catalog.MetadataManager.AddVideoMetadata | plugin.py:115-127 | the catalog becomes the old one plus exactly one record at the end, with the given fields, the given time and file name `{id}.mp4` |
| Catalog.MetadataManager.GetVideoById | plugin.py:129-135 | `None` exactly when no record has the id; otherwise the first record with that id |
| Catalog.MetadataManager.GetVideoByName | plugin.py:137-143 | `None` exactly when no prompt and no original file name contains the name; otherwise the first record where one does |
| Catalog.MetadataManager.GetAllVideos | plugin.py:145-149 | the listing is ordered by creation time non-increasing, is a permutation of the catalog, and keeps catalog order among equal times |
| Catalog.InsertNewestFirst | plugin.py:149 | one insertion step of the stable newest-first sort: the listing grows by exactly one record (its order, multiset and stability are the lemmas below) |
| Catalog.SortNewestFirst | plugin.py:149 | the newest-first listing has as many records as the catalog (see `SortNewestFirstCorrect`) |
| Catalog.InsertPermutes | plugin.py:149 | inserting into the listing adds exactly that record to its multiset |
| Catalog.InsertKeepsOrder | plugin.py:149 | inserting into a newest-first listing keeps it newest first |
| Catalog.InsertKeepsTies | plugin.py:149 | insertion keeps the relative order of records with equal creation time (stability) |
| Catalog.SortPermutes | plugin.py:149 | the listing has the catalog's multiset of records |
| Catalog.SortOrders | plugin.py:149 | the listing is newest first |
| Catalog.SortKeepsTies | plugin.py:149 | for every creation time, the records created at that time appear in catalog order |
| Catalog.SortNewestFirstCorrect | plugin.py:149 | `sorted(..., key=created_at, reverse=True)`: newest first, same multiset, stable |
| Catalog.AllocateKeepsIdsIncreasing | plugin.py:108-127 | appending a record with the allocated id keeps ids strictly increasing in catalog order |
| Catalog.NextIdAfterOneToN | plugin.py:108-113 | a catalog whose ids are 1..N allocates N + 1 |
| Catalog.AppendKeepsOneToN | plugin.py:108-127 | appending the record with id N + 1 to a catalog numbered 1..N keeps it numbered 1..N+1 |
| Catalog.RecordAllKeepsOneToN | plugin.py:108-127 | any number of allocate-then-add steps on a catalog with ids 1..N gives ids 1..N+k, old records unchanged and new names `{id}.mp4` |
| Catalog.RecordAllFromEmpty | plugin.py:108-127 | k allocate-then-add steps from an empty catalog give ids 1..k and files `1.mp4`..`k.mp4` |
| Progress.FillLength | plugin.py:53 | with total size 0 or less the fill is 0; with a positive total and non-negative length and count it is non-negative |
| Progress.BarText | plugin.py:56 | for `0 <= filled <= bar_length` the bar has `bar_length` cells: `filled` filled ones, then unfilled ones |
| Progress.FillWithinBar | plugin.py:53 | with `0 <= downloaded <= total` the fill lies in `[0, bar_length]` |
| Progress.FillMonotone | plugin.py:53 | more bytes never give a shorter fill |
| Progress.FillComplete | plugin.py:53 | the full download fills the whole bar |
| Progress.DrawnBarLength | plugin.py:53-56 | every bar drawn for `0 <= downloaded <= total` has exactly `bar_length` cells |
| Progress.FinishedBarIsFull | plugin.py:65-68 | the bar for the complete download, with a known total, is all filled cells |
| Progress.SpacedPairwise | plugin.py:41-44 | drawings k apart are at least k intervals apart |
| Progress.ProgressBar.constructor | plugin.py:27-33 | nothing seen, never drawn, the given size and bar length |
| Progress.ProgressBar.Update | plugin.py:35-56 | always records the byte count; inside the 100 ms window draws nothing and keeps `last_update`; otherwise draws the bar for the fill and sets `last_update` to now; drawings stay spaced |
| Progress.ProgressBar.Finish | plugin.py:65-68 | an update with the total size: records it; when the interval has passed, it draws the bar and appends the time to the drawings, and otherwise it draws nothing and leaves the drawings as they were |
| Progress.ProgressBar.FinishFull | plugin.py:65-68 | corrected finish: records the total size and always returns the complete bar |
| Progress.FinishRightAfterLastDraw | plugin.py:41-42 | a download drawn at half, completed and finished inside one interval: `finish()` draws nothing |
| Progress.FinishFullRightAfterLastDraw | plugin.py:65-68 | the same download closed by the corrected finish ends on a full bar |
| RemoteJob.NormalizeBase | plugin.py:291 | `rstrip('/')`: a prefix of the base, not ending in `/`, and only `/` was removed |
| RemoteJob.TasksEndpoint | plugin.py:291-296 | the creation URL starts with the stripped base and ends with `/contents/generations/tasks` |
| RemoteJob.TaskEndpoint | plugin.py:331-336 | the status URL is the creation URL, `/`, then exactly the task id |
| RemoteJob.TasksEndpointShape | plugin.py:291-296 | the endpoint is the base without trailing `/`, then `/api/v3` only when the base lacks it, then the tasks path; it always contains `/api/v3` |
| RemoteJob.TrimEndIgnoresSlashes | plugin.py:291 | `rstrip('/')` removes any number of added trailing slashes |
| RemoteJob.TrailingSlashesIgnored | plugin.py:291-296 | trailing slashes on the base do not change the endpoint |
| RemoteJob.StatusEndpointUnderTasks | plugin.py:331-336 | the status URL is the creation URL, `/` and the task id, whatever trailing slashes the base has; it always contains `/api/v3` |
| RemoteJob.VersionSegmentNotDuplicated | plugin.py:293-296 | a base already ending in `/api/v3` gives the same endpoint as the bare base: the segment is never doubled |
| RemoteJob.FirstNonEmpty | plugin.py:348-353 | the `or` chain: `None` exactly when every probed field is empty, otherwise the first non-empty one |
| RemoteJob.ProbeLocator | plugin.py:348-353 | the URL of a succeeded reply is non-empty; there is none exactly when all six fields are empty; a non-empty `content.video_url` wins |
| RemoteJob.Classify | plugin.py:341-378 | polling goes on exactly on an exception, a non-200 reply, queued or running, or a `content`/`error` that is not an object; a URL comes only from a succeeded reply and is the locator probe's |
| RemoteJob.SucceededYieldsLocator | plugin.py:345-362 | a succeeded reply stops with the first non-empty of the six fields in order, and with no URL when all six are empty |
| RemoteJob.StopWithUrlOnlyOnSuccess | plugin.py:341-374 | a URL is returned only from a 200 succeeded reply, and it is non-empty |
| RemoteJob.UnknownStatusStops | plugin.py:372-374 | any status but succeeded, failed, queued and running ends polling with no URL |
| RemoteJob.PollFrom | plugin.py:319-386 | never more queries than replies given; a run begun at or past the deadline makes none and returns no URL; a run that runs out of replies used them all |
| RemoteJob.Poll | plugin.py:313-386 | never more queries than replies given; a deadline of 0 s or less makes no query and returns `None` |
| RemoteJob.ElapsedAtLeastSleeps | plugin.py:319-320 | the n-th query starts no earlier than n full sleeps in |
| RemoteJob.PollFromOutcome | plugin.py:319-386 | every query made began before the deadline; all but the last said keep polling; a URL comes only from the last query's verdict; no URL means a terminal verdict without one or the deadline passed |
| RemoteJob.PollStopsAtFirstTerminal | plugin.py:319-374 | keep-polling replies followed by a terminal one, all begun before the deadline, end with that verdict after exactly that many queries |
| RemoteJob.PollTaskStatus | plugin.py:313-386 | the loop's result and query count are those of `Poll` for the configured deadline and interval |
| RemoteJob.QueuedRunningSucceeded | plugin.py:345-371 | queued, running, then succeeded with a URL: that URL after three queries |
| RemoteJob.ShortDeadlineQueriesOnce | plugin.py:319-384 | a 5 s deadline with a 30 s interval still makes exactly one query, whose verdict decides the result |
| Delivery.ChatCandidates | plugin.py:537-567 | exactly four candidates: the `message_info` group and user, the `chat_stream` group, and the `chat_stream` user only when the stream has no `group_info`; each is present exactly when its id is non-empty |
| Delivery.ResolveTarget | plugin.py:537-571 | the chat is the first present of: `message_info` group, `message_info` user, `chat_stream` group, and `chat_stream` user when the stream has no group info |
| Delivery.GroupIdTakesPriority | plugin.py:542-546 | a non-empty `message_info` group id gives group mode with that id, whatever else is present |
| Delivery.MessageInfoBeforeChatStream | plugin.py:549-556 | without a group id, a `message_info` user id gives private mode before `chat_stream` is consulted |
| Delivery.ChatStreamIsTheFallback | plugin.py:555-567 | with nothing usable in `message_info`, the chat is the stream group, or the stream user when the stream has no `group_info` |
| Delivery.StreamGroupInfoHidesStreamUser | plugin.py:558-567 | a stream `group_info` with an empty id hides the stream user, so no chat id is found |
| Delivery.ResolveChatContext | plugin.py:527-571 | the step-by-step assignments find no id exactly when `ResolveTarget` finds none, and otherwise its id and mode |
| Delivery.RequestFor | plugin.py:574-609 | the URL is exactly `http://localhost:{port}` followed by `/send_group_msg` or `/send_private_msg` by mode; the file is `file://` + path; a configured token is in the body and as `Bearer` header, an empty one in neither |
| Delivery.RequestAddressing | plugin.py:574-609 | the URL is exactly `http://localhost:{port}` and the mode's endpoint, so group mode ends in `/send_group_msg` and private mode in `/send_private_msg`; the id member is `group_id` or `user_id` by mode; the file is `file://` + path; the token goes in the body and header exactly when configured |
| Delivery.NapcatDelivers | plugin.py:501-625 | delivery happens exactly when the file exists, there is a message with a chat, and the gateway answers 200 with a JSON body; a timeout or another exception never delivers |
| Delivery.SendVideoViaNapcat | plugin.py:501-633 | a request is built exactly when the file exists, there is a message and a chat id; it is `RequestFor` that chat; success exactly on a 200 with a JSON body |
| Delivery.HostChannel | plugin.py:402-417 | no host method exactly when none of the three is present; otherwise `send_video` before `send_file` before `upload_video` |
| Delivery.SendVideoResult | plugin.py:388-441 | Napcat exactly when downloaded and Napcat delivers; a host method exactly when Napcat fails and one is present and does not raise; sent ends with the success text and has no link, an unsent video gives the link; the file is removed exactly when not kept, it exists and no exception was raised |
| Commands.ValidateConfig | plugin.py:209-251 | valid exactly when there are no errors, exactly when the key is empty or at least 10 long, the base is empty or starts with `http`, and a model is set; each message appears exactly under its condition; the errors come in the order short key, base format, missing model, and a missing key warns before a short wait; no other message appears |
| Commands.ErrorListShape | plugin.py:219-236 | the error list holds exactly the errors whose check fires, each once, in the order short key, base format, missing model, and nothing else |
| Commands.WarningListShape | plugin.py:219-246 | the warning list holds exactly the warnings whose check fires, the missing-key warning first, and nothing else |
| Commands.ReplaceForbidden | plugin.py:456 | each of `\ / : * ? " < > \|` becomes `_`, every other character is kept |
| Commands.SafePrompt | plugin.py:456 | `video` for an empty prompt; otherwise the first 20 characters with forbidden ones replaced; never a forbidden character |
| Commands.OriginalFilename | plugin.py:457 | `豆包_{safe}_` is a prefix and `.mp4` a suffix, and the text between them is exactly `str(timestamp)`, which `int()` reads back as the timestamp |
| Commands.OriginalFilenameIsSafe | plugin.py:455-457 | `豆包_{safe}_{timestamp}.mp4` never holds a forbidden character, whatever the prompt |
| Commands.SelectModel | plugin.py:720-782 | on the stripped text: selects exactly when it parses as an integer in 1..3, a supported model; missing exactly when blank; not a number exactly when non-blank and `int()` rejects it; out of range exactly when it parses outside 1..3 |
| Commands.SelectIndex | plugin.py:723-782 | `MissingIndex` exactly for blank text; a supported model exactly when the text parses as an integer in 1..3; `NotANumber` exactly when non-blank text does not parse; `OutOfRange` exactly when it parses outside 1..3 |
| Commands.SelectionReply | plugin.py:723-777 | the reply starts with `✅` exactly for a selection and then ends with the model; out-of-range and non-number replies end with the range `1-3` |
| Commands.SelectionReplyDistinct | plugin.py:723-777 | different selection outcomes, including the three error paths, get different replies |
| Commands.SelectByNumber | plugin.py:737-739 | number n in range selects the n-th model counting from 1 |
| Commands.ModelListNumbering | plugin.py:698-699 | the model list shows entry n as `n. model` |
| Commands.ListedNumberSelectsModel | plugin.py:698-739 | the number shown beside a model in the list selects that model |
| Commands.ListedNumberPrefix | plugin.py:698-699 | the model list entry n starts with `n. ` |
| Commands.ListedNumberSelects | plugin.py:723-739 | the text `str(n)` selects model n for each n in 1..3 |
| Commands.StrippedNumberSelects | plugin.py:723-739 | any text that stripping leaves alone and `int()` reads as n in 1..3 selects model n |
| Commands.ListReply | plugin.py:663-668 | with items, the reply is the header and the items joined by `，` (trailing separator removed) |
| Commands.VideoListReply | plugin.py:651-668 | an empty catalog gives the no-video text; otherwise the header and `filename，prompt` for each video newest first, joined by `，` |
| Commands.ModelListItems | plugin.py:698-699 | one item per supported model; item i starts with `str(i + 1) + ". "` and ends with model i |
| Commands.ModelListReply | plugin.py:696-703 | the header and the numbered models joined by `，` |
| Commands.JoinPath | plugin.py:824 | `os.path.join` on POSIX: an absolute name is returned as is; otherwise the path starts with the directory and ends with the name, and its length is that of the directory and the name together, plus one for the `/` added when the directory is non-empty and does not end in `/` |
| Commands.FindVideo | plugin.py:811-817 | an identifier `int()` accepts is looked up by id, any other by name, each the first match |
| Commands.SendStoredVideo | plugin.py:831-862 | Napcat, then the first host method, else the path and a cannot-send text; a raising host method gives the failure text |
| Commands.DeliveryOutcome | plugin.py:831-869 | the success text follows the sending text exactly when some channel took the file; the path is shown only when no host method exists |
| Commands.PlayVideo | plugin.py:791-869 | an unmatched identifier group (`None`) gives the failure text; a blank identifier asks for one; an unknown one is reported; a missing file is reported; otherwise the lookup and the delivery are as above |
| Text.TrimEnd | plugin.py:291 | `rstrip(chars)`: a prefix of the input, not ending in one of the characters, and only those characters were removed |
| Text.Trim | plugin.py:723 | `lstrip` then `rstrip` of `chars`: a slice of the input, only characters of `chars` removed around it, neither end in `chars` |
| Text.Strip | plugin.py:723 | `strip()`: the result is a slice of the input with every character before and after it whitespace, and neither of its ends whitespace |
| Text.StripDigits | plugin.py:723 | stripping a non-empty run of digits leaves it unchanged |
| Text.NatToString | plugin.py:124 | `str(n)` for `n >= 0`: non-empty decimal digits, with a leading `0` only for 0 |
| Text.IntToString | plugin.py:124 | `str(i)`: digits with a leading `0` only for 0 for a non-negative int, `-` then digits for a negative one |
| Text.ParseInt | plugin.py:737 | `int(s)` on stripped text: a result needs a non-empty text ending in a digit, a negative one a leading `-`; plain digits give their decimal value |
| Text.ParseIntOfIntToString | plugin.py:813 | `int(str(i)) == i` for every integer |

## Left out

- Network I/O is not modelled: the aiohttp sessions, request headers and timeouts. Each reply is a given value: a `Query` for a status poll and a `GatewayReply` for Napcat.
- `asyncio.sleep` and `time.time` are not modelled. The clock is an integer in milliseconds: each query carries its own latency, and `ProgressBar.Update` takes `now`.
- File I/O is replaced by values:
  - the JSON catalog is the `entries` field. A load failure, which the code answers with `[]`, is a caller passing `[]`.
  - `os.path.exists` is the parameter `fileExists`.
  - `os.makedirs`, the chunked file write and `os.remove` are not modelled. Whether the file is removed is a result, `removed`.
- The float percentage, the MB figures and the `print` rendering of `ProgressBar` are not modelled. Only the integer fill and the cells are kept.
- `_create_video_task` is modelled only as its URL construction (`TasksEndpoint`). The payload, headers, HTTP call and `id` extraction are network glue.
- `_auto_download_video`'s streaming loop is not modelled. Its output is the parameter `downloaded` of `SendVideoResult`. The file name it records is `Commands.OriginalFilename`.
- `VideoGenerateCommand.execute` is not modelled. It only sequences validation, task creation, polling and delivery with progress messages.
- `ModelSelectCommand`'s config persistence (`plugin_manager`, `_save_config_to_file`) and its follow-up replies are not modelled. Only the selection and its first reply (`SelectionReply`) are.
- The second `_send_video_via_napcat` (plugin.py:871-1003) is a copy of plugin.py:501-633 and is modelled once, as `Delivery.SendVideoViaNapcat`.
- `_save_metadata` catches and logs a failed write (plugin.py:100-106). The model's `entries` always holds the appended record. After a failed write the file keeps the old records, so the next `get_next_video_number` can hand out the same id again. That reissue is not modelled.
- Catalog.RecordAllKeepsOneToN: holds only for downloads that do not interleave. `get_next_video_number` (plugin.py:460) and `add_video_metadata` (plugin.py:490) are separated by the awaited download. Two commands running at once can therefore both read the same catalog and get the same id. The same restriction applies to `Catalog.RecordAllFromEmpty` and `Catalog.AllocateKeepsIdsIncreasing`.
- Commands.PlayVideo: takes an unmatched `video_identifier` group to be `None`, which is what `groupdict()` gives. With the pattern at plugin.py:789, `/播放豆包` followed by nothing or by spaces leaves the optional group unmatched: the greedy `\s*` takes the spaces. `.strip()` of `None` raises, and plugin.py:866-869 answers with the failure text, so the missing-identifier reply is reached only for a group the host reports as `""`. How the host builds `matched_groups` is not part of this model.
- Plugin registration, the config schema, components, `on_enable`/`on_disable` and logging are not modelled.
- `Text.ParseInt`: does not accept non-ASCII Unicode digits or surrounding whitespace, as Python's `int()` does. Callers strip the text first, as the code does.
- JSON values are strings or integers by type here. A non-string `status`, a non-string locator value, or a record missing a key, which would raise in the code, are not represented. The same goes for an integer `group_id`/`user_id`, which the code would pass through `str()`. An empty string stands for a falsy value.
- `RemoteJob.PollTaskStatus`: the result `ScriptExhausted` exists only because the script of replies is finite. It marks a run that needed more replies than were given, and the code has no such outcome.
- `Progress.ProgressBar.Finish`: does not claim a 100% bar is drawn. It is an ordinary throttled update, as the code is (see Findings).
- `Progress.ProgressBar.FinishFull`: its forced drawing, when inside the interval, is not recorded in `drawnAt`/`lastUpdate`. That record keeps only the throttled drawings, whose spacing `Valid` states.

## Findings

| source | as written | input that shows it | evidently intended | confidence | as-written member | corrected member |
|---|---|---|---|---|---|---|
| plugin.py:65-68 | `finish()` draws the bar through the rate-limited `update`, which returns early within 0.1 s of the last drawing | a 100-byte download: update(50) draws at 1000 ms, update(100) at 1020 ms and finish() at 1040 ms draw nothing, so the last bar shown is half full | finish always shows the complete bar, as its comment promises | high, not executed | Progress.FinishRightAfterLastDraw | Progress.ProgressBar.FinishFull |
