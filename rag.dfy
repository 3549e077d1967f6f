/** Context assembly of rag.py: the chat history `chat_repl` hands to the
    language model, the query plan `answer_query` hands to the retrieval
    engine, the node records `index_message` and `index_images` insert into
    the vector index, and the result of `download_and_create_images`. The
    engine, the model and the network are not modelled: their inputs are
    built here, their outputs come in as parameters. */
module Rag {
  import opened PyText
  import opened Models

  // ---------------------------------------------------------------------
  // Channel view of a guild's log

  /** The entries of `log` posted in channel `ch`, in log order. */
  function ChannelLog(log: seq<Message>, ch: int): (r: seq<Message>)
    ensures |r| <= |log|
    ensures forall i :: 0 <= i < |r| ==> r[i].channelId == ch
    decreases |log|
  {
    if log == [] then []
    else
      var last := log[|log| - 1];
      ChannelLog(log[..|log| - 1], ch) + (if last.channelId == ch then [last] else [])
  }

  /** The channel view of a log extended at its end is the old view extended
      by the new entries' own view: appends show up last, in append order. */
  lemma {:induction false} ChannelLogAppend(a: seq<Message>, b: seq<Message>, ch: int)
    ensures ChannelLog(a + b, ch) == ChannelLog(a, ch) + ChannelLog(b, ch)
    decreases |b|
  {
    if b == [] {
      assert a + b == a;
    } else {
      var b' := b[..|b| - 1];
      ChannelLogAppendStep(a, b, ch);
      ChannelLogAppend(a, b', ch);
    }
  }

  lemma ChannelLogAppendStep(a: seq<Message>, b: seq<Message>, ch: int)
    requires b != []
    ensures var last := b[|b| - 1];
            ChannelLog(a + b, ch) == ChannelLog(a + b[..|b| - 1], ch) + (if last.channelId == ch then [last] else [])
            && ChannelLog(b, ch) == ChannelLog(b[..|b| - 1], ch) + (if last.channelId == ch then [last] else [])
  {
    assert (a + b)[..|a + b| - 1] == a + b[..|b| - 1];
  }

  /** Appending one entry posted in the channel extends the channel view by it. */
  lemma ChannelLogPush(log: seq<Message>, e: Message, ch: int)
    requires e.channelId == ch
    ensures ChannelLog(log + [e], ch) == ChannelLog(log, ch) + [e]
  {
    assert (log + [e])[..|log|] == log;
  }

  /** An entry is in the channel view exactly when it is in the log and was
      posted in that channel. */
  lemma {:induction false} ChannelLogMembers(log: seq<Message>, ch: int, m: Message)
    ensures m in ChannelLog(log, ch) <==> m in log && m.channelId == ch
    decreases |log|
  {
    if log != [] {
      var init := log[..|log| - 1];
      ChannelLogMembers(init, ch, m);
      assert log == init + [log[|log| - 1]];
    }
  }

  /** The message text of each entry: `[msg.just_msg for msg in ...]`. */
  function JustMsgs(log: seq<Message>): (r: seq<string>)
    ensures |r| == |log|
    ensures forall i :: 0 <= i < |log| ==> r[i] == log[i].justMsg
  {
    seq(|log|, i requires 0 <= i < |log| => log[i].justMsg)
  }

  // ---------------------------------------------------------------------
  // chat_repl: the chat history

  datatype Role = System | User | Assistant

  /** One element of a multi-part content list: `{"type": "image_url", "image_url": {"url": u}}`. */
  datatype ContentPart = ImageUrlPart(url: string)

  /** A chat message's content: plain text, or a list of content parts. */
  datatype Content = TextContent(text: string) | Parts(parts: seq<ContentPart>)

  datatype ChatMessage = ChatMessage(role: Role, content: Content)

  const SystemPrompt := "You are a helpful assistant. Your name is RAgent."

  const SystemMessage := ChatMessage(System, TextContent(SystemPrompt))

  /** The chat turn one log entry becomes, with `bot` being `str(bot.user)`.
      A turn is the assistant's exactly when the bot wrote the entry; an image
      entry carries its data URL as a single image part, any other entry its
      text. */
  function Turn(m: Message, bot: string): (t: ChatMessage)
    ensures t.role == Assistant <==> m.author == bot
    ensures t.role != System
    ensures m.isImage ==> t.content == Parts([ImageUrlPart(m.justMsg)])
    ensures !m.isImage ==> t.content == TextContent(m.justMsg)
  {
    ChatMessage(if m.author != bot then Role.User else Assistant,
                if m.isImage then Parts([ImageUrlPart(m.justMsg)]) else TextContent(m.justMsg))
  }

  /** The turns for the entries of channel `ch`, in log order. */
  function Turns(log: seq<Message>, ch: int, bot: string): (ts: seq<ChatMessage>)
    ensures |ts| == |ChannelLog(log, ch)|
    ensures forall i :: 0 <= i < |ts| ==> (ts[i].role == Assistant <==> ChannelLog(log, ch)[i].author == bot)
  {
    var view := ChannelLog(log, ch);
    seq(|view|, i requires 0 <= i < |view| => Turn(view[i], bot))
  }

  /** The loop of `chat_repl`: one system message, then one turn per entry
      of the guild's log posted in the asking channel, in log order. */
  method ChatHistory(log: seq<Message>, ch: int, bot: string) returns (history: seq<ChatMessage>)
    ensures history == [SystemMessage] + Turns(log, ch, bot)
    ensures |history| == 1 + |ChannelLog(log, ch)|
    ensures forall i :: 1 <= i < |history| ==> history[i] == Turn(ChannelLog(log, ch)[i - 1], bot)
  {
    history := [SystemMessage];
    var i := 0;
    while i < |log|
      invariant 0 <= i <= |log|
      invariant history == [SystemMessage] + Turns(log[..i], ch, bot)
    {
      var msg := log[i];
      assert log[..i + 1][..i] == log[..i];
      if msg.channelId == ch {
        if msg.author != bot {
          if msg.isImage {
            history := history + [ChatMessage(Role.User, Parts([ImageUrlPart(msg.justMsg)]))];
          } else {
            history := history + [ChatMessage(Role.User, TextContent(msg.justMsg))];
          }
        } else {
          if msg.isImage {
            history := history + [ChatMessage(Assistant, Parts([ImageUrlPart(msg.justMsg)]))];
          } else {
            history := history + [ChatMessage(Assistant, TextContent(msg.justMsg))];
          }
        }
      }
      i := i + 1;
    }
    assert log[..|log|] == log;
  }

  /** `messages.get(guild_id, [])` */
  function GuildLog(messages: map<int, seq<Message>>, guild: int): seq<Message>
  {
    if guild in messages then messages[guild] else []
  }

  /** `chat_repl` up to the model call: the history built from the guild's log. */
  method ChatRepl(messages: map<int, seq<Message>>, guild: int, ch: int, bot: string)
    returns (history: seq<ChatMessage>)
    ensures history == [SystemMessage] + Turns(GuildLog(messages, guild), ch, bot)
    ensures guild !in messages ==> history == [SystemMessage]
  {
    history := ChatHistory(GuildLog(messages, guild), ch, bot);
  }

  // ---------------------------------------------------------------------
  // answer_query: the query plan

  datatype MetaValue = Str(s: string) | Int(n: int)

  datatype FilterOperator = EQ

  datatype MetadataFilter = MetadataFilter(key: string, op: FilterOperator, value: MetaValue)

  /** `FixedRecencyPostprocessor(top_k, date_key)` */
  datatype Recency = FixedRecency(topK: nat, dateKey: string)

  /** Everything `answer_query` hands to the engine: the prompt's partial
      format values, the retrieval filter and parameters, and the query bundle. */
  datatype QueryPlan = QueryPlan(
    replies: string,
    userAsking: string,
    botName: string,
    filters: seq<MetadataFilter>,
    postprocessor: Recency,
    similarityTopK: nat,
    queryStr: string,
    customEmbeddingStrs: seq<string>)

  const TopK := 8
  const DateKey := "posted_at"

  /** `[msg.just_msg for msg in log if msg.channel_id == ch][-n:-1]`, n being `LAST_N_MESSAGES`. */
  function ThreadMessages(log: seq<Message>, ch: int, n: int): (t: seq<string>)
    ensures |ChannelLog(log, ch)| >= 1 ==> |t| < |ChannelLog(log, ch)|
    ensures |ChannelLog(log, ch)| == 0 ==> t == []
  {
    PySlice(JustMsgs(ChannelLog(log, ch)), -n, -1)
  }

  /** For n >= 1 and a channel with L entries, the short-term buffer holds
      the min(L, n) - 1 messages just before the channel's latest one, in
      order (none when L <= 1); the latest message itself is left out. */
  lemma ThreadMessagesWindow(log: seq<Message>, ch: int, n: int)
    requires n >= 1
    ensures var view := ChannelLog(log, ch);
            var t := ThreadMessages(log, ch, n);
            var L := |view|;
            |t| == (if L == 0 then 0 else Min(L, n) - 1)
            && forall i :: 0 <= i < |t| ==> t[i] == view[L - Min(L, n) + i].justMsg
  {
    var view := ChannelLog(log, ch);
    var t := ThreadMessages(log, ch, n);
    assert t == PySlice(JustMsgs(view), -n, -1);
    LastButOneTexts(view, t, n);
  }

  /** With `LAST_N_MESSAGES` set to 0 the slice is `[-0:-1]`, that is
      `[0:-1]`: every channel text but the latest. */
  lemma ThreadMessagesZero(log: seq<Message>, ch: int)
    ensures var view := ChannelLog(log, ch);
            var t := ThreadMessages(log, ch, 0);
            (|view| == 0 ==> t == [])
            && (|view| >= 1 ==> t == JustMsgs(view)[..|view| - 1])
  {
    var xs := JustMsgs(ChannelLog(log, ch));
    if |xs| >= 1 {
      PySliceZeroWindow(xs);
    }
  }

  lemma LastButOneTexts(view: seq<Message>, t: seq<string>, n: int)
    requires n >= 1 && t == PySlice(JustMsgs(view), -n, -1)
    ensures |t| == (if |view| == 0 then 0 else Min(|view|, n) - 1)
    ensures forall i :: 0 <= i < |t| ==> t[i] == view[|view| - Min(|view|, n) + i].justMsg
  {
    var xs := JustMsgs(view);
    var L := |view|;
    var k := Min(L, n);
    PySliceLastButOne(xs, n);
    if L > 0 {
      forall i | 0 <= i < |t| ensures t[i] == view[L - k + i].justMsg {
        assert t[i] == xs[L - k + i];
      }
    }
  }

  /** `answer_query` up to the engine call. */
  function AnswerQuery(messages: map<int, seq<Message>>, guild: int, ch: int, query: string,
                       n: int, userName: string, bot: string): (plan: QueryPlan)
    ensures plan.filters == [MetadataFilter("guild_id", EQ, Int(guild))]
    ensures plan.postprocessor == FixedRecency(8, "posted_at") && plan.similarityTopK == 8
    ensures plan.queryStr == query
    ensures |plan.customEmbeddingStrs| >= 1
    ensures plan.customEmbeddingStrs[|plan.customEmbeddingStrs| - 1] == query
  {
    var thread := ThreadMessages(GuildLog(messages, guild), ch, n);
    var repliesQuery := ThreadMessages(GuildLog(messages, guild), ch, n) + [query];
    QueryPlan(Join("\n", thread), userName, bot,
              [MetadataFilter("guild_id", EQ, Int(guild))],
              FixedRecency(TopK, DateKey), TopK, query, repliesQuery)
  }

  /** The embedding seeds are the prompt's prior turns followed by the query,
      and the prompt's `replies` is those prior turns joined by newlines. */
  lemma AnswerQuerySeeds(messages: map<int, seq<Message>>, guild: int, ch: int, query: string,
                         n: int, userName: string, bot: string)
    ensures var plan := AnswerQuery(messages, guild, ch, query, n, userName, bot);
            var thread := ThreadMessages(GuildLog(messages, guild), ch, n);
            plan.customEmbeddingStrs == thread + [query]
            && |plan.customEmbeddingStrs| == |thread| + 1
            && plan.replies == Join("\n", thread)
  {
  }

  // ---------------------------------------------------------------------
  // index_message / index_images: the node records

  const MetadataKeys: seq<string> := ["author", "posted_at", "channel_id", "guild_id"]

  /** A node inserted into the multi-modal vector index. */
  datatype Node =
    | TextNode(text: string, metadata: map<string, MetaValue>, excludedLlm: seq<string>, excludedEmbed: seq<string>)
    | ImageNode(image: string, metadata: map<string, MetaValue>, excludedLlm: seq<string>, excludedEmbed: seq<string>)

  /** The metadata both kinds of node carry. */
  function Metadata(when: Moment, who: User, guild: int, channel: Channel): (md: map<string, MetaValue>)
    ensures md.Keys == {"author", "posted_at", "channel_id", "guild_id"}
    ensures md["guild_id"] == Int(guild) && md["channel_id"] == Int(channel.id)
    ensures md["author"] == Str(who.display) && md["posted_at"] == Str(when.iso)
  {
    map["author" := Str(who.display), "posted_at" := Str(when.iso),
        "channel_id" := Int(channel.id), "guild_id" := Int(guild)]
  }

  /** The metadata has exactly the four keys, every one hidden from both the
      model's view and the embedding's view, and records the author,
      timestamp, channel and guild. */
  predicate WellTagged(node: Node, when: Moment, who: User, guild: int, channel: Channel)
  {
    node.metadata.Keys == {"author", "posted_at", "channel_id", "guild_id"}
    && (forall k :: k in node.metadata ==> k in node.excludedLlm && k in node.excludedEmbed)
    && node.metadata["author"] == Str(who.display)
    && node.metadata["posted_at"] == Str(when.iso)
    && node.metadata["channel_id"] == Int(channel.id)
    && node.metadata["guild_id"] == Int(guild)
  }

  /** `index_message` up to the insert: one text node. */
  function IndexMessage(when: Moment, who: User, content: string, guild: int, channel: Channel): (node: Node)
    ensures node.TextNode?
    ensures WellTagged(node, when, who, guild, channel)
  {
    TextNode(MessageStr(when, who, channel, content), Metadata(when, who, guild, channel),
             MetadataKeys, MetadataKeys)
  }

  /** The indexed text is exactly the `message_str` the log stores for the
      same message, so the log and the index render a message alike. */
  lemma IndexMessageMatchesLog(when: Moment, who: User, content: string, guild: int, channel: Channel)
    ensures IndexMessage(when, who, content, guild, channel).text
              == TextEntry(when, who, content, channel).messageStr
    ensures IndexMessage(when, who, content, guild, channel).text
              == "[" + when.stamp + "] - @" + who.display + " on #[" + ChannelTag(channel) + "]: `" + content + "`"
  {
  }

  /** The image node for one base64 image. */
  function ImageNodeFor(image: string, when: Moment, who: User, guild: int, channel: Channel): (node: Node)
    ensures node.ImageNode? && node.image == image
    ensures WellTagged(node, when, who, guild, channel)
  {
    ImageNode(image, Metadata(when, who, guild, channel), MetadataKeys, MetadataKeys)
  }

  /** The loop of `index_images`: one image node per image, in order; the
      result is the batch given to the single `insert_nodes` call. */
  method IndexImages(when: Moment, who: User, images: seq<string>, guild: int, channel: Channel)
    returns (nodes: seq<Node>)
    ensures |nodes| == |images|
    ensures forall i :: 0 <= i < |images| ==> nodes[i] == ImageNodeFor(images[i], when, who, guild, channel)
  {
    nodes := [];
    var i := 0;
    while i < |images|
      invariant 0 <= i <= |images|
      invariant |nodes| == i
      invariant forall j :: 0 <= j < i ==> nodes[j] == ImageNodeFor(images[j], when, who, guild, channel)
    {
      var node := ImageNode(images[i], Metadata(when, who, guild, channel), MetadataKeys, MetadataKeys);
      nodes := nodes + [node];
      i := i + 1;
    }
  }

  // ---------------------------------------------------------------------
  // download_and_create_images: local names and result shape

  const ImageDir := "./images"

  /** `os.path.basename(url)`: what follows the last '/'. */
  function Basename(path: string): (b: string)
    ensures |b| <= |path| && path == path[..|path| - |b|] + b
    ensures !Contains(b, "/")
    ensures |b| == |path| || path[|path| - |b| - 1] == '/'
  {
    var slash := RFind(path, "/", 0, |path|);
    AfterRFindChar(path, '/');
    var b := path[slash + 1..];
    assert forall j :: 0 <= j < |b| ==> b[j] == path[slash + 1 + j];
    NotContainsChar(b, '/');
    b
  }

  /** `os.path.join(IMAGE_DIR, os.path.basename(url))`: the base name holds
      no '/', so the join is a plain concatenation. */
  function JoinedName(url: string): (f: string)
    ensures |f| > |ImageDir| && f[..|ImageDir| + 1] == ImageDir + "/"
    ensures var b := f[|ImageDir| + 1..];
            !Contains(b, "/") && |b| <= |url| && url[|url| - |b|..] == b
  {
    var b := Basename(url);
    var f := ImageDir + "/" + b;
    assert f[|ImageDir| + 1..] == b;
    f
  }

  /** The name `download_image` saves under: the joined name followed by
      `filename[filename.rfind('.'):filename.rfind('?')]`. */
  function SavedName(url: string): (name: string)
    ensures StartsWith(name, JoinedName(url))
  {
    var f := JoinedName(url);
    var name := f + PySlice(f, RFind(f, ".", 0, |f|), RFind(f, "?", 0, |f|));
    assert name[..|f|] == f;
    name
  }

  /** Appending to a fixed directory prefix: when `b` has a '.' and, after
      its last '.', a '?', the slice between the last '.' and the last '?'
      of the joined name is the same slice of `b`. */
  lemma SuffixSlice(dir: string, b: string, d: nat, q: nat)
    requires d < q < |b| && b[d] == '.' && b[q] == '?'
    requires forall j :: d < j < |b| ==> b[j] != '.'
    requires forall j :: q < j < |b| ==> b[j] != '?'
    ensures var f := dir + b;
            PySlice(f, RFind(f, ".", 0, |f|), RFind(f, "?", 0, |f|)) == b[d..q]
  {
    var f := dir + b;
    var k := |dir|;
    LastCharAfterPrefix(dir, b, '.', d);
    LastCharAfterPrefix(dir, b, '?', q);
    PySliceNonNegative(f, k + d, k + q);
    assert f[k..] == b;
    assert f[k + d..k + q] == f[k..][d..q];
  }

  /** The last `c` of `dir + b`, when `b` holds one, is the last `c` of `b`. */
  lemma LastCharAfterPrefix(dir: string, b: string, c: char, p: nat)
    requires p < |b| && b[p] == c
    requires forall j :: p < j < |b| ==> b[j] != c
    ensures RFind(dir + b, [c], 0, |dir + b|) == |dir| + p
  {
    var f := dir + b;
    forall j | |dir| + p < j < |f| ensures f[j] != c { assert f[j] == b[j - |dir|]; }
    RFindLastChar(f, c, |dir| + p);
  }

  /** When the base name has a '.' and, after its last '.', a '?', the
      suffix added is the base name's text from its last '.' up to (not
      including) its last '?', e.g. "a.png?ex=1" is saved as
      "./images/a.png?ex=1.png". */
  lemma SavedNameSuffix(url: string, d: nat, q: nat)
    requires var b := Basename(url);
             d < q < |b| && b[d] == '.' && b[q] == '?'
             && (forall j :: d < j < |b| ==> b[j] != '.')
             && (forall j :: q < j < |b| ==> b[j] != '?')
    ensures var b := Basename(url);
            SavedName(url) == ImageDir + "/" + b + b[d..q]
  {
    var b := Basename(url);
    SuffixSlice(ImageDir + "/", b, d, q);
    assert JoinedName(url) == (ImageDir + "/") + b;
  }

  /** The same join-and-slice on a name without '?': `rfind` gives -1, so the
      suffix runs from the last '.' to the next-to-last character; e.g. the
      name computed for "https://x/y/cat.png" is "./images/cat.png.pn". */
  lemma SavedNameNoQuery()
    ensures SavedName("https://x/y/cat.png") == "./images/cat.png.pn"
  {
    var f := "./images/cat.png";
    JoinedNameCat();
    assert SavedName("https://x/y/cat.png") == f + PySlice(f, RFind(f, ".", 0, |f|), RFind(f, "?", 0, |f|));
    RFindsCat();
    assert PySlice(f, 12, -1) == f[12..15];
    assert f[12..15] == ".pn";
  }

  lemma RFindsCat()
    ensures var f := "./images/cat.png";
            RFind(f, ".", 0, |f|) == 12 && RFind(f, "?", 0, |f|) == -1
  {
    var f := "./images/cat.png";
    RFindLastChar(f, '.', 12);
    RFindAbsentChar(f, '?');
  }

  lemma JoinedNameCat()
    ensures JoinedName("https://x/y/cat.png") == "./images/cat.png"
  {
    var url := "https://x/y/cat.png";
    LastCharAfterPrefix("https://x/y", "/cat.png", '/', 0);
    assert url == "https://x/y" + "/cat.png";
    assert Basename(url) == url[12..] == "cat.png";
  }

  /** `download_image`: the saved file name when the fetch, the decode and
      `image.save` succeed, `None` when any of them raises. `fetchOk` says
      which URLs get through all three (network, decoding and saving are not
      modelled). Saving depends on the computed name: the image library picks
      the file format from the extension, so a name such as
      "./images/cat.png.pn" makes the save raise and the result `None`. The
      name always begins with the base name joined onto the image directory. */
  function DownloadImage(url: string, fetchOk: string -> bool): (r: Option<string>)
    ensures r.Some? <==> fetchOk(url)
    ensures r.Some? ==> StartsWith(r.value, JoinedName(url))
  {
    if fetchOk(url) then Some(SavedName(url)) else None
  }

  /** The result of `asyncio.gather` over the per-URL downloads: one entry
      per URL, in request order, `None` exactly where that download failed. */
  function DownloadAndCreateImages(urls: seq<string>, fetchOk: string -> bool): (paths: seq<Option<string>>)
    ensures |paths| == |urls|
    ensures forall i :: 0 <= i < |urls| ==> (paths[i].Some? <==> fetchOk(urls[i]))
    ensures forall i :: 0 <= i < |urls| && paths[i].Some? ==> paths[i].value == SavedName(urls[i])
  {
    seq(|urls|, i requires 0 <= i < |urls| => DownloadImage(urls[i], fetchOk))
  }
}
