# RAgent conversation core in Dafny

RAgent is a Discord bot. It remembers the messages of every guild it listens to, indexes them
in a vector store, and answers mentions and `/rag` questions with a language model. This project
models the bot's core and proves properties of the model:

- **Conversation store** (`discord_bot.py`, `models/message.py`). The class `DiscordBot.Store`
  holds the two maps the bot updates in place:
  - `messages`: guild id to the guild's log of `Message` records;
  - `listening`: guild id to a flag.

  Its methods are `remember_message` and `remember_images`, the slash commands `/listen`, `/stop`,
  `/status` and `/forget`, the `/rag` command with its checks in front, and `on_message`. Mention
  rewriting (`process_incoming_message`) is a loop method proved against a function.
- **Reply segmenter** (`split_content` and the send decision of `chunk_reply`).
  - `Segmenter.Segments` is a functional specification of the segments the loop cuts.
  - `Segmenter.SplitContent` is the loop itself. It is a method with invariants, proved to
    return `Split`.
  - The regular expressions are written out as scans that report non-overlapping matches from
    left to right, as `re.finditer` does (`Segmenter.FindIter`). `\d` is taken as the ASCII
    digits (see Left out).
- **Context assembly** (`rag.py`):
  - the chat history of `chat_repl`;
  - the query plan of `answer_query`, meaning the `[-n:-1]` window of prior channel texts, the
    guild filter, the recency post-processor and the embedding seeds;
  - the nodes of `index_message` and `index_images`;
  - the saved-file names and the result shape of `download_and_create_images`.
- **Python primitives** (`PyText`). These are the string and slice operations the bot relies on,
  with CPython's semantics written out: negative slice bounds, `str.find` and `str.rfind` with
  bounds, `str.replace`, `str.split` and `str.join`.

The language model, the retrieval engine, the network downloads and `encode_image` are parameters
of the operations that call them (`llm`, `engine`, `downloadOk`, `encode`). An outcome of `None`
from one of them stands for the call raising.

Quirks of the code that the model reproduces:

- **Search windows.** They are `[last_index+500, last_index+2000)` and
  `[last_index+1500, last_index+2000)` whatever `max_length` is. Only the hard fallback uses
  `max_length`.
- **Title patterns.** `r'\n###' r'\n\*\*'` has no comma between the two literals, so it is ONE
  pattern, `"\n###\n**"`. The structural break list therefore has two patterns, not three.
- **Part length.** A part can be longer than the limit: the raw slice is at most 2000 characters,
  and synthetic fence text comes on top of it. The bound of 2000 and the exact round trip are
  proved for replies without a fence.
- **Fence opened at the window start.** When an odd fence count's last fence sits at the window
  start, the segment is not pulled back. Instead it is closed with a synthetic fence, and the block
  stays open with the info string read from `content.find('\n', last_index + 4, next_split)`.
- **Lost tail.** The final part reached inside a block loses its text (see Findings).
- **Forget.** `/forget` on a guild that has no log entry leaves the guild listened to (see
  Findings).
- **Rag.** `/rag` never remembers its answer (see Findings).
- **Embedding seeds.** The seeds are the texts of the last `n` channel entries minus the latest
  one (the `[-n:-1]` slice), followed by the query.
- **File names.** `download_image` appends `filename[rfind('.'):rfind('?')]` to the name.
  Without a `?`, the `-1` bound cuts the last character: the computed name for `cat.png` is
  `./images/cat.png.pn` (`Rag.SavedNameNoQuery`). The image library cannot infer a format from
  `.pn`, so `image.save` raises there and `download_image` returns `None`. The parameter
  `downloadOk` therefore also stands for the save failing, which depends on that name.
- **Attachments without a content type.** Discord leaves `content_type` unset on some
  attachments. Collecting image URLs then calls `startswith` on `None` and raises, so such a
  message in a listened guild stores nothing and gets no reply (`DiscordBot.Store.OnMessage`).
- **Direct messages.** The default intents include direct messages, where `message.guild` is
  `None`. A direct message that is not the bot's own and does not start with `/` raises at
  `listening.get(message.guild.id, False)` (discord_bot.py:361), so nothing is stored, indexed or
  answered, even when it mentions the bot (`DiscordBot.Store.OnMessage`).

## Model

| member | source | states |
|---|---|---|
| PyText.Find | discord_bot.py:139 | `str.find` within `[lo, hi)`: either -1 with no occurrence in range, or the first occurrence in range |
| PyText.RFind | discord_bot.py:125 | `str.rfind` within `[lo, hi)`: either -1, or an occurrence in range with none after it |
| PyText.SliceBound | rag.py:145 | Python's slice bound: a bound in `[0, n]` is kept, a negative one counts from the end (`n + i`), and anything beyond either end is clamped to `0` or `n` |
| PyText.PySliceLastButOne | rag.py:143-145 | `xs[-n:-1]` for `n >= 1` is the `min(len, n) - 1` elements before the last one, or empty |
| PyText.ReplaceAllIsJoinOfSplit | discord_bot.py:22 | `str.replace` equals splitting at the pattern and joining with the replacement |
| PyText.ReplaceAll | discord_bot.py:22 | `str.replace`, left to right and non-overlapping: a replacement no shorter than the pattern never shortens the text, and one of the same length keeps its length |
| PyText.ReplaceAllAbsent | discord_bot.py:22 | replacing a pattern that does not occur leaves the text unchanged |
| PyText.Occurrences | discord_bot.py:131 | exactly the positions where the pattern occurs, in increasing order |
| PyText.Decimal | discord_bot.py:21 | `str(id)` is a non-empty run of decimal digits whose value is `id`, with no leading zero unless `id` is 0 |
| PyText.DecimalInjective | discord_bot.py:21 | different ids have different decimal texts |
| Models.ChannelTag | discord_bot.py:32 | `str(channel)[:15]` is the prefix of `min(len, 15)` characters |
| Models.MessageStr | rag.py:73 | the `[<stamp>] - @<who> on #[<tag>]: `<content>`` rendering begins with the bracketed stamp and ends with the content between backticks |
| Models.TextEntry | discord_bot.py:32-42 | a text entry: not an image, in a thread exactly when the channel is a public thread, with the author, channel id and content, and the content at the end of its rendering |
| Models.ImageSuffixAfterLastDot | discord_bot.py:62 | `url[url.rfind('.')+1:]` is the text after the last '.' and holds no '.'; it is the whole path when there is no '.' |
| Models.ImageSuffix | discord_bot.py:62 | `url[url.rfind('.')+1:]` is a suffix of the path |
| Models.ImageDataUrlRoundTrip | discord_bot.py:70 | the `data:image/<ext>;base64,<enc>` string parses back into `ext` and `enc` when `ext` holds no ';' |
| Models.ImageDataUrl | discord_bot.py:70 | the data URL begins with `data:image/` and ends with the base64 text |
| Models.ImageEntry | discord_bot.py:62-70 | an image entry: flagged as an image, the file path as its rendering, and a data URL that parses back into the file suffix and the base64 text |
| Segmenter.MatchAt | discord_bot.py:111-113 | a match of a break pattern has positive length and lies inside the window; a literal matches exactly where it occurs, over its own length |
| Segmenter.DigitRunExact | discord_bot.py:113 | the greedy `\d+` run ending before a non-digit has exactly the length of that run |
| Segmenter.MatchAtNumbered | discord_bot.py:113 | `\n\d+\.\s` matches at a position if and only if a newline, one or more digits, a '.' and a white-space character stand there, and the match spans exactly those |
| Segmenter.FindIter | discord_bot.py:117 | every position `re.finditer` reports is a match inside the window, at or after the scan start |
| Segmenter.FindIterOrdered | discord_bot.py:117 | the reported matches come left to right, each starting at or after the end of the one before, so none overlap |
| Segmenter.FindIterComplete | discord_bot.py:117 | no match is skipped: every position where the pattern matches lies in the span of a reported match |
| Segmenter.FindIterEmptyIff | discord_bot.py:117-118 | `finditer` yields nothing if and only if no position of the window matches |
| Segmenter.FindIterLiteral | discord_bot.py:131 | for the fence and title literals, which cannot overlap themselves, `finditer` yields exactly all occurrences, in order |
| Segmenter.NumberedItemsCanHideEachOther | discord_bot.py:113 | `\n\d+\.\s` matches overlap: in `"\n1.\n2. "` position 3 matches, but `finditer` reports only 0 |
| Segmenter.LastOccurrenceIsRFind | discord_bot.py:119 | the last occurrence exists exactly when the text contains the pattern, and it is `rfind` |
| Segmenter.TitleMatchesAreOccurrences | discord_bot.py:116-119 | the last title match is the last occurrence of `"\n###\n**"` in the window |
| Segmenter.LastMatchOfFirst | discord_bot.py:116-121 | the chosen structural break lies inside the window |
| Segmenter.StructuralBreakOrder | discord_bot.py:110-121 | the last title match if there is one, else the last numbered-item match, else none |
| Segmenter.LastSoftBreak | discord_bot.py:122-129 | a soft break is -1 or lies in `[lo, min(hi, len))` |
| Segmenter.SoftBreakOrder | discord_bot.py:122-129 | the last `"\n"` in the narrow window, else the last `". "`, else the last `" "` |
| Segmenter.ChooseSplit | discord_bot.py:107-129 | the split point lies strictly after `last_index` and before the end, at most 2000 (or `max_length`) characters on |
| Segmenter.ChooseSplitPriority | discord_bot.py:107-129 | the split is the last title (offset by 500), else the last numbered item, else the soft break in order, else `last_index + max_length` |
| Segmenter.CodeIdIsInfoString | discord_bot.py:139-140 | the captured block id is the text after the opening fence up to the next newline, with no newline in it |
| Segmenter.CodeId | discord_bot.py:139-140 | the block id is the text that starts right after the opening fence |
| Segmenter.Step | discord_bot.py:107-160 | one pass emits the slice `[last_index, split')` and moves `last_index` strictly forward, by at most the span bound |
| Segmenter.FenceStep | discord_bot.py:131-160 | the corrected split lies after `last_index` and never beyond the chosen split |
| Segmenter.StepInsideBlock | discord_bot.py:144-158 | inside a block, an even fence count reopens and closes the part and stays in the block; an odd count reopens it and leaves the block |
| Segmenter.StepBalancedOutside | discord_bot.py:132-152 | outside a block, an even fence count yields the plain slice and leaves the state as it is |
| Segmenter.StepOpensBlock | discord_bot.py:135-154 | outside a block, an odd count whose last fence is at the window start closes the part with a fence and enters the block with its id |
| Segmenter.StepPullsBack | discord_bot.py:141-142 | otherwise the split moves back to the last fence, which leaves an even number of fences in the part |
| Segmenter.PulledStep | discord_bot.py:141-152 | the pulled-back pass emits the plain slice up to that fence |
| Segmenter.LastFenceInWindow | discord_bot.py:131-142 | the last fence of an odd count lies strictly inside the window and has an even number of fences before it |
| Segmenter.WindowFences | discord_bot.py:131 | `finditer(r'\n```')` over a window is exactly the fence occurrences of that window |
| Segmenter.Segments | discord_bot.py:99-161 | the parts are consecutive slices from `last_index`, and there is a part exactly when text remains |
| Segmenter.Split | discord_bot.py:93-161 | `split_content` renders the segments as parts; it returns no part exactly when the text is empty |
| Segmenter.SplitShort | discord_bot.py:101-106 | a non-empty text of at most `max_length` characters is the single part |
| Segmenter.UnfoldLast | discord_bot.py:101-106 | the final part is the rest of the text, or, inside a block, the header followed by the empty stale slice |
| Segmenter.RawTextIsSlice | discord_bot.py:99-161 | the raw slices of the parts concatenate to one contiguous slice of the text |
| Segmenter.SegmentsCover | discord_bot.py:99-161 | the slices reach the end of the text, unless the final part was reached inside a block |
| Segmenter.SplitRoundTrip | discord_bot.py:93-161 | with the synthetic fence text removed, the parts plus the lost tail give back the text, and a tail is lost only in that case |
| Segmenter.SegmentsBounded | discord_bot.py:109-160 | every raw slice is at most 2000 (or `max_length`) characters long, and every part but the last advances |
| Segmenter.FenceFreeParts | discord_bot.py:131-152 | a text without fences never gets synthetic fence text |
| Segmenter.ConcatUndecorated | discord_bot.py:151-152 | parts without synthetic fence text concatenate to their raw slices |
| Segmenter.SplitFenceFree | discord_bot.py:93-161 | a text without fences is reproduced exactly by concatenating its parts |
| Segmenter.RenderedLengths | discord_bot.py:151-152 | parts without synthetic fence text, cut from slices of at most 2000 characters, are at most 2000 characters long |
| Segmenter.ScanBreakPatterns | discord_bot.py:116-121 | the pattern loop finds a break exactly when `LastMatchOfFirst` has one, and reports its offset |
| Segmenter.ScanSoftBreaks | discord_bot.py:122-129 | the soft-break loop returns `LastSoftBreak` |
| Segmenter.FindGoodSplit | discord_bot.py:107-129 | the split search returns `ChooseSplit` |
| Segmenter.FenceFix | discord_bot.py:131-159 | the fence correction emits the rendered part and the state of `FenceStep` |
| Segmenter.PassKeepsSplit | discord_bot.py:99-160 | appending one pass's part keeps the parts so far, followed by the rest, equal to the full split |
| Segmenter.SplitContent | discord_bot.py:93-161 | the `while` loop returns exactly `Split(content, max_length)` |
| Segmenter.TailDroppedExample | discord_bot.py:101-103 | `split_content("\n```x\nab", 4)` returns `["\n```\n```", "\n```x\na\n"]`, which loses `"x\nab"` |
| Segmenter.FixedSegmentsCover | discord_bot.py:101-105 | with the final in-block part taking `content[last_index:]`, the slices always reach the end of the text |
| Segmenter.FixedSplitRoundTrip | discord_bot.py:93-161 | with the repaired final part, the raw slices of the parts give back the whole text |
| Segmenter.ChunkReplyFenceFree | discord_bot.py:92-170 | a reply without "```" goes out as parts of at most 2000 characters that concatenate back to it |
| Segmenter.ChunkReply | discord_bot.py:163-177 | after the "```" rewrite of line 92, at least one message is sent; a reply without "```" of at most 2000 characters goes out unchanged as one message |
| Rag.ChannelLog | rag.py:110-112 | the channel's entries: no more than the log holds, all posted in that channel |
| Rag.ChannelLogMembers | rag.py:110-112 | an entry is in the channel view exactly when it is in the log and was posted in the channel |
| Rag.ChannelLogAppend | discord_bot.py:36-42 | appending to a log appends the new entries' channel view at the end, in order |
| Rag.ChannelLogPush | discord_bot.py:36-42 | appending an entry of the channel extends the channel view by exactly that entry |
| Rag.JustMsgs | rag.py:144 | one text per entry, each being the entry's `just_msg` |
| Rag.Turn | rag.py:111-122 | a turn is the assistant's exactly when the bot wrote it, never the system's; an image entry becomes an image part, other entries text |
| Rag.Turns | rag.py:108-110 | one turn per entry of the asking channel, the assistant's exactly where the bot wrote the entry |
| Rag.ChatHistory | rag.py:107-122 | the system prompt, then one turn per channel entry, in log order |
| Rag.ChatRepl | rag.py:106-112 | the history is built from the guild's log, and is only the system prompt when the guild has none |
| Rag.ThreadMessagesWindow | rag.py:143-145 | the window holds the `min(L, n) - 1` channel texts before the latest one, in order |
| Rag.ThreadMessages | rag.py:143-145 | the window never holds as many texts as the channel has entries, and none for an empty channel |
| Rag.ThreadMessagesZero | rag.py:143-145 | with `LAST_N_MESSAGES` 0 the `[-0:-1]` slice is every channel text but the latest |
| Rag.LastButOneTexts | rag.py:184-186 | the same window over any channel view |
| Rag.AnswerQuery | rag.py:134-197 | the plan filters on `guild_id == guild`, uses top-k 8 with recency on `posted_at`, and queries with the query, which is also the last seed |
| Rag.AnswerQuerySeeds | rag.py:151-196 | the seeds are the window followed by the query, and the prompt's `replies` is the window joined by newlines |
| Rag.IndexMessage | rag.py:72-87 | one text node whose metadata has exactly author, time, channel and guild, all hidden from the model and from embedding |
| Rag.Metadata | rag.py:77-82 | exactly the keys `author`, `posted_at`, `channel_id`, `guild_id`, holding the author, time, channel id and guild id |
| Rag.IndexMessageMatchesLog | rag.py:73 | the node text equals the `message_str` the log stores for the same message |
| Rag.ImageNodeFor | rag.py:92-102 | an image node that carries the image and the same four hidden metadata keys |
| Rag.IndexImages | rag.py:89-104 | one image node per image, in order |
| Rag.Basename | rag.py:216 | `os.path.basename` is the suffix of the URL after its last '/' (the whole URL when there is none) |
| Rag.JoinedName | rag.py:216 | `os.path.join(IMAGE_DIR, basename)` is `./images/` followed by a slash-free suffix of the URL |
| Rag.SavedName | rag.py:218-223 | the saved name begins with the joined name |
| Rag.SuffixSlice | rag.py:218 | the `[rfind('.'):rfind('?')]` slice of the joined name is the base name's slice between its last '.' and last '?' |
| Rag.SavedNameSuffix | rag.py:216-223 | a name like `a.png?ex=1` is saved as the joined name followed by `.png` |
| Rag.SavedNameNoQuery | rag.py:216-223 | without '?', the name computed for `cat.png` is `./images/cat.png.pn` |
| Rag.DownloadImage | rag.py:206-232 | a name exactly when the fetch, decode and save succeed, and the name begins with the joined name |
| Rag.DownloadAndCreateImages | rag.py:241-251 | one result per URL, in order, `None` exactly where the download fails, and otherwise the saved name |
| DiscordBot.MentionTag | discord_bot.py:21 | the raw mention is `<@`, the decimal digits of the user id with no leading zero, and `>` |
| DiscordBot.MentionTagInjective | discord_bot.py:21 | different users have different raw mentions |
| DiscordBot.ProcessIncomingMessage | discord_bot.py:17-24 | the mention loop returns the content with each mentioned user's tag replaced, in order |
| DiscordBot.RewriteMentions | discord_bot.py:19-23 | the in-order fold of `content.replace(<@id>, @name)` over the mentions; a text without "<@" is left unchanged |
| DiscordBot.RewriteStepIsSplitJoin | discord_bot.py:22 | each rewrite step splits at the tag and joins with `@name` |
| DiscordBot.RewriteMentionsAbsent | discord_bot.py:17-24 | content without any mentioned tag is unchanged |
| DiscordBot.Appended | discord_bot.py:34-36 | the guild's log gains the entries at its end, the key is created if it was missing, and other guilds are unchanged |
| DiscordBot.AppendedTwice | discord_bot.py:63-70 | two appends to one guild equal one append of both batches |
| DiscordBot.SavedPrefix | discord_bot.py:59-61 | the files `remember_images` gets through are the downloads before the first failure |
| DiscordBot.ImageEntries | discord_bot.py:59-70 | one image entry per file, with the file name and the data URL of its suffix and encoding |
| DiscordBot.ImageUrls | discord_bot.py:364 | never more URLs than attachments |
| DiscordBot.ImageUrlsExact | discord_bot.py:364 | exactly the URLs of attachments whose content type starts with "image" |
| DiscordBot.IsImage | discord_bot.py:364 | an attachment is an image exactly when it has a content type whose first five characters are "image" |
| DiscordBot.ImageUrlsAppend | discord_bot.py:364 | the comprehension keeps attachment order: the URLs of two runs of attachments are the URLs of the first followed by those of the second |
| DiscordBot.NoImages | discord_bot.py:364-366 | without image attachments nothing fails, and no image entry or node is made |
| DiscordBot.NodesOfSavedImages | discord_bot.py:371-372 | the nodes indexed for the encoded files are the message's image nodes |
| DiscordBot.RagMessages | discord_bot.py:311-314 | the entries that are not system notices: empty exactly when every entry is one |
| DiscordBot.Store.constructor | discord_bot.py:196-208 | both maps start empty |
| DiscordBot.Store.RememberMessage | discord_bot.py:27-43 | one text entry at the end of the guild's log, and it is the newest entry of its channel's view |
| DiscordBot.Store.RememberImages | discord_bot.py:49-72 | one entry per file before the first failed download, the list of encodings, and whether it raised |
| DiscordBot.Store.Listen | discord_bot.py:221-231 | the guild is listened to, and the log is unchanged |
| DiscordBot.Store.Stop | discord_bot.py:235-245 | the guild is not listened to, and the log is unchanged |
| DiscordBot.Store.Status | discord_bot.py:279-286 | the "listening" text exactly when the guild is listened to; an unknown guild reads as not listening |
| DiscordBot.Store.Forget | discord_bot.py:249-275 | as written: the log entry is gone, and the listening entry is removed only when the log entry existed; plus the reply and the guild filter of the index delete |
| DiscordBot.Store.ForgetAll | discord_bot.py:258-264 | as intended: the guild is not listened to, its log is empty, and everything else is unchanged |
| DiscordBot.Store.RagGate | discord_bot.py:299-319 | the refusal of the first failing check, and none exactly when listening with a query and some non-notice entry |
| DiscordBot.Store.RagReplies | discord_bot.py:293-340 | a refusal alone, or replies that end with the error notice |
| DiscordBot.Store.RagAndRemember | discord_bot.py:320-334 | as intended: a refusal is sent alone; an answer is sent in parts, appended to the log and indexed; a failed engine call sends the error notice and changes nothing |
| DiscordBot.Store.RecordIncoming | discord_bot.py:361-374 | if a download fails, only the earlier images are stored; otherwise image entries then the text entry are stored, and the image nodes then the text node are indexed |
| DiscordBot.Store.ReplyToMention | discord_bot.py:376-407 | refusals change nothing; a model error gives the notice; an answer is sent in parts, remembered and indexed |
| DiscordBot.Store.OnMessage | discord_bot.py:352-409 | for every case (own or command message, direct message without a guild, not listening, an attachment without a content type, failed download, plain message, mention), the new log, the indexed nodes and the replies |
| DiscordBot.AfterForget | discord_bot.py:258-264 | the log entry is gone, and listening changes only when the log entry existed |
| DiscordBot.AfterForgetAll | discord_bot.py:258-264 | both entries are gone, and every other guild is unchanged |
| DiscordBot.ForgetKeepsListening | discord_bot.py:258-264 | a listened-to guild without a log is still listened to after `/forget` |
| DiscordBot.ForgetAllStops | discord_bot.py:258-264 | intended forget: not listened to, empty log, and idempotent |
| DiscordBot.ForgetIdempotent | discord_bot.py:258-264 | as written, a second `/forget` changes nothing |

## Left out

- **Discord I/O is not modelled.** This covers sending, typing indicators, `defer`, and the
  followup-versus-channel choice of `chunk_reply`. Replies are the texts handed to the send calls,
  in order. Whether Discord accepts `response.send_message` after `defer` is not modelled.
- **Persistence is not modelled.** The snapshot writes (`persist_messages`, `persist_listening`)
  and the pickle loading at start-up are left out. The constructor is the state when no snapshot
  exists.
- **The external services are not modelled.** The Qdrant client, the vector index inserts and
  deletes, and the language-model call are left out. Nodes and delete filters are returned as
  values, and the model and the engine are parameters.
- **Downloads and file I/O are not modelled.** The network, PIL decoding, saving the file and
  reading it back as base64 are left out. `downloadOk` and `encode` are parameters.
- **The clock is not modelled.** `strftime`, `str(datetime)` and the snowflake-to-time conversion
  are left out. `Moment` carries the two renderings as given.
- **Concurrency is not modelled.** asyncio scheduling and `asyncio.gather` are left out, and
  downloads are taken in request order.
- **Unmodelled commands, hooks and logging.** The `sync` command, `on_ready`,
  `bot.process_commands`, the `chunk_reply` input-type check and all logging and printing are left
  out.
- **Slash commands outside a guild are not modelled.** The `Store` commands take a guild id. In a
  direct message the source raises `AttributeError` at `interaction.guild.id`
  (discord_bot.py:226, 240, 261, 284, 299; for `/rag` after `defer`), before any state changes.
- **Identity and mentions are simplified.** `message.author == bot.user` is compared by user id.
  `bot.user.mentioned_in(message)` is the field `mentionsBot`.
- **Settings and the length limit are parameters.** `settings.LAST_N_MESSAGES` is the parameter
  `n`. `max_length` (default 2000) is a parameter and must be positive, since 0 would loop
  forever.
- Segmenter.ChunkReplyFenceFree: the 2000-character bound and the exact round trip are stated only for replies without "```"; with fences, the synthetic fence text can take a part over the limit.
- Segmenter.SegmentsBounded: bounds the raw slice of each part, not the synthetic fence text added to it.
- Rag.ThreadMessagesWindow: stated for `n >= 1`; `n == 0` is covered by `Rag.ThreadMessagesZero`, and a negative `n` only by the general `Rag.ThreadMessages` bounds; `AnswerQuery` itself takes any `n`.
- DiscordBot.Store.RagReplies: states the refusal cases and that the error notice comes last after the engine is reached; the answer parts before it are given by its body (`ChunkReply` of the answer).
- DiscordBot.Store.RecordIncoming: exceptions raised by the index inserts themselves are not modelled.
- Segmenter.MatchAt: `\d` is taken as the ASCII digits `0`-`9`. Python's `re` on a `str` pattern also matches every other Unicode decimal digit (category Nd), a set fixed by Python's Unicode database version, which the model does not carry.

## Findings

| source | as written | input that shows it | evidently intended | confidence | as-written member | corrected member |
|---|---|---|---|---|---|---|
| discord_bot.py:101-103 | the final part reached inside a code block slices `content[last_index:next_split]` with the stale `next_split == last_index`, which is empty | `split_content("\n```x\nab", 4)` returns `["\n```\n```", "\n```x\na\n"]`, so `"x\nab"` is lost | the final in-block part carries `content[last_index:]`, so the parts cover the whole text | not executed | Segmenter.TailDroppedExample | Segmenter.FixedSplitRoundTrip |
| discord_bot.py:258-264 | `messages.pop` and `listening.pop` share one `try`, so a `KeyError` from the first skips the second | `/forget` in guild 7 with `messages = {}` and `listening = {7: True}`: guild 7 is still listened to, although the reply says listening stopped | both entries are removed, so the guild is not listened to and its log is empty | not executed | DiscordBot.ForgetKeepsListening | DiscordBot.ForgetAllStops |
| discord_bot.py:330-334 | `timezone.utc` is used although only `datetime` is imported, so after the answer is sent a `NameError` sends the error notice and skips remembering | any `/rag` that passes the checks while listening and gets an answer | the answer is appended to the log and indexed | not executed | DiscordBot.Store.RagReplies | DiscordBot.Store.RagAndRemember |
