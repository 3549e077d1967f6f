/** The stateful part of discord_bot.py: the per-guild conversation log
    `messages` and the per-guild `listening` flag, the slash commands that
    read and change them, the gate in front of `/rag`, and what `on_message`
    remembers, indexes and replies. Discord itself, the language model, the
    retrieval engine and the downloads come in as parameters. */
module DiscordBot {
  import opened PyText
  import opened Models
  import Segmenter
  import Rag

  // ---------------------------------------------------------------------
  // Fixed replies (the emoji appear as the code points the source holds)

  const SysPrefix := "**RAgent SYS**:"
  const ListenReply := "**RAgent SYS**: Listening to your messages now."
  const StopReply := "**RAgent SYS**: Stopped listening to messages."
  const ForgetReply := "**RAgent SYS**: All messages forgotten & stopped listening to yall"
  const StatusOn := "**RAgent SYS**: Listening to yall\U{F0}\U{178}\U{2018}\U{201A}"
  const StatusOff := "**RAgent SYS**: Not Listening \U{F0}\U{178}\U{2122}\U{2030}"
  const RagNotListening := "I'm not listening to what y'all saying. \nRun \"/listen\" if you want me to start listening."
  const EmptyInput := "**RAgent SYS**: Empty Input?"
  const EmptyKnowledge := "**RAgent SYS**: Hey, RAgent's knowledge base is empty now. Please say something before using rag function."
  const ErrorReply := "**RAgent SYS**: The bot encountered an error, will try to fix it soon."
  const MentionNotListening := "I'm not listening to what y'all saying \U{F0}\U{178}\U{2122}\U{2C6}\U{F0}\U{178}\U{2122}\U{2030}\U{F0}\U{178}\U{2122}\U{160}. \nRun \"/listen\" if you want me to start listening."
  const EmptyMention := "What?"

  // ---------------------------------------------------------------------
  // process_incoming_message

  /** The raw form of a user mention in message text: `<@id>`. */
  function MentionTag(u: User): (t: string)
    ensures |t| >= 4 && t[0] == '<' && t[1] == '@' && t[|t| - 1] == '>'
    ensures var digits := t[2..|t| - 1];
            (forall i :: 0 <= i < |digits| ==> '0' <= digits[i] <= '9')
            && DigitsValue(digits) == u.id && (digits[0] == '0' ==> u.id == 0)
  {
    var t := "<@" + Decimal(u.id) + ">";
    assert t[2..|t| - 1] == Decimal(u.id);
    t
  }

  /** Users with different ids have different mention tags, so rewriting one
      user's mentions never touches another's. */
  lemma MentionTagInjective(u: User, v: User)
    requires u.id != v.id
    ensures MentionTag(u) != MentionTag(v)
  {
  }

  /** The content after replacing, user by user in order, each mention tag with `@name`. */
  function RewriteMentions(content: string, mentions: seq<User>): (r: string)
    ensures !Contains(content, "<@") ==> r == content
    decreases |mentions|
  {
    if mentions == [] then content
    else
      var u := mentions[|mentions| - 1];
      var prior := RewriteMentions(content, mentions[..|mentions| - 1]);
      if !Contains(content, "<@") then
        TagNeedsMarker(content, u);
        ReplaceAllAbsent(prior, MentionTag(u), "@" + u.name);
        ReplaceAll(prior, MentionTag(u), "@" + u.name)
      else ReplaceAll(prior, MentionTag(u), "@" + u.name)
  }

  /** Every mention tag begins with "<@", so a text without "<@" holds none. */
  lemma TagNeedsMarker(content: string, u: User)
    requires !Contains(content, "<@")
    ensures !Contains(content, MentionTag(u))
  {
    var t := MentionTag(u);
    if Contains(content, t) {
      var i :| 0 <= i <= |content| && OccursAt(content, t, i);
      assert content[i..i + 2] == t[..2] == "<@";
      assert OccursAt(content, "<@", i);
    }
  }

  /** The loop of `process_incoming_message`. */
  method ProcessIncomingMessage(content: string, mentions: seq<User>) returns (r: string)
    ensures r == RewriteMentions(content, mentions)
  {
    r := content;
    var i := 0;
    while i < |mentions|
      invariant 0 <= i <= |mentions|
      invariant r == RewriteMentions(content, mentions[..i])
    {
      var user := mentions[i];
      assert mentions[..i + 1][..i] == mentions[..i];
      r := ReplaceAll(r, MentionTag(user), "@" + user.name);
      i := i + 1;
    }
    assert mentions[..|mentions|] == mentions;
  }

  /** Each rewrite step is the text split at the tag and rejoined with the
      handle in between. */
  lemma RewriteStepIsSplitJoin(content: string, mentions: seq<User>)
    requires mentions != []
    ensures var u := mentions[|mentions| - 1];
            RewriteMentions(content, mentions)
              == Join("@" + u.name, SplitOn(RewriteMentions(content, mentions[..|mentions| - 1]), MentionTag(u)))
  {
    var u := mentions[|mentions| - 1];
    ReplaceAllIsJoinOfSplit(RewriteMentions(content, mentions[..|mentions| - 1]), MentionTag(u), "@" + u.name);
  }

  /** Text without any of the mentioned users' tags is left unchanged. */
  lemma {:induction false} RewriteMentionsAbsent(content: string, mentions: seq<User>)
    requires forall u <- mentions :: !Contains(content, MentionTag(u))
    ensures RewriteMentions(content, mentions) == content
    decreases |mentions|
  {
    if mentions != [] {
      var u := mentions[|mentions| - 1];
      RewriteMentionsAbsent(content, mentions[..|mentions| - 1]);
      ReplaceAllAbsent(content, MentionTag(u), "@" + u.name);
    }
  }

  // ---------------------------------------------------------------------
  // The log as a map

  /** `messages[guild]` after appending `entries`, the entry being created if absent. */
  function Appended(m: map<int, seq<Message>>, guild: int, entries: seq<Message>): (r: map<int, seq<Message>>)
    ensures guild in r && r[guild] == Rag.GuildLog(m, guild) + entries
    ensures forall h :: h != guild ==> Rag.GuildLog(r, h) == Rag.GuildLog(m, h) && (h in r <==> h in m)
  {
    m[guild := Rag.GuildLog(m, guild) + entries]
  }

  /** Two appends to one guild's log are one append of both batches. */
  lemma AppendedTwice(m: map<int, seq<Message>>, guild: int, a: seq<Message>, b: seq<Message>)
    ensures Appended(Appended(m, guild, a), guild, b) == Appended(m, guild, a + b)
  {
    assert Rag.GuildLog(m, guild) + a + b == Rag.GuildLog(m, guild) + (a + b);
  }

  /** The files of a message's image attachments that `remember_images`
      gets through: the downloads up to the first failure. */
  function SavedImages(msg: Incoming, downloadOk: string -> bool): seq<string>
  {
    SavedPrefix(Rag.DownloadAndCreateImages(ImageUrls(msg.attachments), downloadOk))
  }

  /** Some image download of the message fails, so `remember_images` raises. */
  predicate DownloadFails(msg: Incoming, downloadOk: string -> bool)
  {
    |SavedImages(msg, downloadOk)| < |ImageUrls(msg.attachments)|
  }

  /** The image entries remembered for a message. */
  function ImageBatch(msg: Incoming, downloadOk: string -> bool, encode: string -> string): seq<Message>
  {
    ImageEntries(msg.createdAt, msg.author, SavedImages(msg, downloadOk), msg.channel, encode)
  }

  /** The nodes `index_images` inserts for a message: one per saved file, in order. */
  function ImageNodes(msg: Incoming, downloadOk: string -> bool, encode: string -> string): seq<Rag.Node>
  requires msg.guild.Some?
  {
    var saved := SavedImages(msg, downloadOk);
    seq(|saved|, i requires 0 <= i < |saved| =>
      Rag.ImageNodeFor(encode(saved[i]), msg.createdAt, msg.author, msg.guild.value, msg.channel))
  }

  /** Nodes built one per encoded saved file are the message's image nodes. */
  lemma NodesOfSavedImages(nodes: seq<Rag.Node>, images: seq<string>, msg: Incoming,
                           downloadOk: string -> bool, encode: string -> string)
    requires msg.guild.Some?
    requires var saved := SavedImages(msg, downloadOk);
             |images| == |saved| && (forall i :: 0 <= i < |saved| ==> images[i] == encode(saved[i]))
    requires |nodes| == |images|
    requires forall i :: 0 <= i < |images| ==>
               nodes[i] == Rag.ImageNodeFor(images[i], msg.createdAt, msg.author, msg.guild.value, msg.channel)
    ensures nodes == ImageNodes(msg, downloadOk, encode)
  {
  }

  /** The guild log after the listening branch of `on_message` got through:
      the message's image entries, then its text entry. */
  function Recorded(messages: map<int, seq<Message>>, msg: Incoming, content: string,
                    downloadOk: string -> bool, encode: string -> string): map<int, seq<Message>>
    requires msg.guild.Some?
  {
    Appended(messages, msg.guild.value, ImageBatch(msg, downloadOk, encode) + [UserEntry(msg, content)])
  }

  /** The text entry remembered for a message whose text is `content`. */
  function UserEntry(msg: Incoming, content: string): Message
  {
    TextEntry(msg.createdAt, msg.author, content, msg.channel)
  }

  /** A message without image attachments downloads nothing and stores no image. */
  lemma NoImages(msg: Incoming, downloadOk: string -> bool, encode: string -> string)
    requires ImageUrls(msg.attachments) == []
    ensures !DownloadFails(msg, downloadOk) && ImageBatch(msg, downloadOk, encode) == []
    ensures msg.guild.Some? ==> ImageNodes(msg, downloadOk, encode) == []
  {
    assert |Rag.DownloadAndCreateImages([], downloadOk)| == 0;
  }

  /** The history `chat_repl` sends for a mention: the system prompt, then
      the turns of the channel's entries in the guild's log. */
  function MentionHistory(messages: map<int, seq<Message>>, msg: Incoming, bot: User): seq<Rag.ChatMessage>
    requires msg.guild.Some?
  {
    [Rag.SystemMessage] + Rag.Turns(Rag.GuildLog(messages, msg.guild.value), msg.channel.id, bot.display)
  }

  lemma AppendAfter<T>(x: seq<T>, u: T, b: seq<T>)
    ensures b == [] ==> (x + [u]) + b == x + [u]
    ensures |b| == 1 ==> (x + [u]) + b == x + [u, b[0]]
  {
  }

  /** `listening.get(guild, False)` */
  predicate ListeningIn(listening: map<int, bool>, guild: int)
  {
    guild in listening && listening[guild]
  }

  /** The values of the leading run of `Some` entries: the files
      `remember_images` gets through before it meets a failed download. */
  function SavedPrefix(docs: seq<Option<string>>): (r: seq<string>)
    ensures |r| <= |docs|
    ensures forall i :: 0 <= i < |r| ==> docs[i] == Some(r[i])
    ensures |r| < |docs| ==> docs[|r|].None?
    decreases |docs|
  {
    if docs == [] || docs[0].None? then [] else [docs[0].value] + SavedPrefix(docs[1..])
  }

  /** The entries `remember_images` appends for saved files `paths`, each
      file's contents read as base64 text by `encode`. */
  function ImageEntries(when: Moment, who: User, paths: seq<string>, channel: Channel,
                        encode: string -> string): (es: seq<Message>)
    ensures |es| == |paths|
    ensures forall i :: 0 <= i < |paths| ==>
              es[i].isImage && es[i].messageStr == paths[i] && es[i].channelId == channel.id
              && es[i].justMsg == ImageDataUrl(ImageSuffix(paths[i]), encode(paths[i]))
  {
    seq(|paths|, i requires 0 <= i < |paths| => ImageEntry(when, who, paths[i], encode(paths[i]), channel))
  }

  lemma ImageEntriesStep(when: Moment, who: User, paths: seq<string>, i: nat, channel: Channel,
                          encode: string -> string)
    requires i < |paths|
    ensures ImageEntries(when, who, paths[..i + 1], channel, encode)
            == ImageEntries(when, who, paths[..i], channel, encode)
               + [ImageEntry(when, who, paths[i], encode(paths[i]), channel)]
  {
  }

  /** Appending the next saved file's entry to a log that holds the entries
      of the files before it gives the log with the entries up to it. */
  lemma ImageAppendStep(m0: map<int, seq<Message>>, m: map<int, seq<Message>>, guild: int, when: Moment, who: User,
                        saved: seq<string>, i: nat, channel: Channel, encode: string -> string)
    requires i < |saved| && m == Appended(m0, guild, ImageEntries(when, who, saved[..i], channel, encode))
    ensures guild in m
    ensures m[guild := m[guild] + [ImageEntry(when, who, saved[i], encode(saved[i]), channel)]]
            == Appended(m0, guild, ImageEntries(when, who, saved[..i + 1], channel, encode))
  {
    var entry := ImageEntry(when, who, saved[i], encode(saved[i]), channel);
    ImageEntriesStep(when, who, saved, i, channel, encode);
    AppendedTwice(m0, guild, ImageEntries(when, who, saved[..i], channel, encode), [entry]);
  }

  /** Adding the next file's encoding to the encodings of the files before it. */
  lemma EncodedPush(images: seq<string>, saved: seq<string>, i: nat, encode: string -> string)
    requires |images| == i < |saved| && forall j :: 0 <= j < i ==> images[j] == encode(saved[j])
    ensures var next := images + [encode(saved[i])];
            |next| == i + 1 && forall j :: 0 <= j < i + 1 ==> next[j] == encode(saved[j])
  {
  }

  /** `a.content_type.startswith("image")` for an attachment whose content type is known. */
  predicate IsImage(a: Attachment)
    ensures IsImage(a) <==> (a.contentType.Some? && |a.contentType.value| >= 5
                             && forall i :: 0 <= i < 5 ==> a.contentType.value[i] == "image"[i])
  {
    a.contentType.Some? && StartsWith(a.contentType.value, "image")
  }

  /** Some attachment has no content type, so `a.content_type.startswith`
      raises while the image URLs are collected. */
  predicate UntypedAttachment(msg: Incoming)
  {
    exists a <- msg.attachments :: a.contentType.None?
  }

  /** `[a.url for a in message.attachments if a.content_type.startswith("image")]` */
  function ImageUrls(attachments: seq<Attachment>): (urls: seq<string>)
    ensures |urls| <= |attachments|
    decreases |attachments|
  {
    if attachments == [] then []
    else (if IsImage(attachments[0]) then [attachments[0].url] else []) + ImageUrls(attachments[1..])
  }

  /** The URLs collected are exactly those of the image attachments. */
  lemma {:induction false} ImageUrlsExact(attachments: seq<Attachment>)
    ensures forall u <- ImageUrls(attachments) :: exists a <- attachments :: a.url == u && IsImage(a)
    ensures forall a <- attachments :: IsImage(a) ==> a.url in ImageUrls(attachments)
    decreases |attachments|
  {
    if attachments != [] {
      var rest := attachments[1..];
      ImageUrlsExact(rest);
      assert forall a <- rest :: a in attachments;
      assert forall a <- attachments :: a == attachments[0] || a in rest;
    }
  }

  /** The URLs keep the attachments' order and multiplicity: the URLs of two
      attachment lists in a row are the URLs of the first, then of the second. */
  lemma {:induction false} ImageUrlsAppend(a: seq<Attachment>, b: seq<Attachment>)
    ensures ImageUrls(a + b) == ImageUrls(a) + ImageUrls(b)
    decreases |a|
  {
    if a == [] {
      assert a + b == b;
    } else {
      var rest := a[1..];
      var head := if IsImage(a[0]) then [a[0].url] else [];
      assert a == [a[0]] + rest;
      assert a + b == [a[0]] + (rest + b);
      ImageUrlsCons(a[0], rest);
      ImageUrlsCons(a[0], rest + b);
      ImageUrlsAppend(rest, b);
      calc {
        ImageUrls(a + b);
        head + ImageUrls(rest + b);
        head + (ImageUrls(rest) + ImageUrls(b));
        (head + ImageUrls(rest)) + ImageUrls(b);
        ImageUrls(a) + ImageUrls(b);
      }
    }
  }

  /** One step of `ImageUrls`: the first attachment's URL, if it is an image, then the rest's. */
  lemma ImageUrlsCons(x: Attachment, rest: seq<Attachment>)
    ensures ImageUrls([x] + rest) == (if IsImage(x) then [x.url] else []) + ImageUrls(rest)
  {
    assert ([x] + rest)[1..] == rest;
  }

  /** `content_type` is optional in a Discord attachment. */
  datatype Attachment = Attachment(url: string, contentType: Option<string>)

  /** An incoming Discord message: `mentionsBot` is `bot.user.mentioned_in(message)`, and
      `guild` is `None` for a direct message. */
  datatype Incoming = Incoming(
    author: User,
    content: string,
    mentions: seq<User>,
    guild: Option<int>,
    channel: Channel,
    createdAt: Moment,
    attachments: seq<Attachment>,
    mentionsBot: bool)

  /** The guild's entries that are not the bot's own system notices. */
  function RagMessages(log: seq<Message>): (r: seq<Message>)
    ensures forall m <- r :: m in log && !StartsWith(m.justMsg, SysPrefix)
    ensures r == [] <==> forall m <- log :: StartsWith(m.justMsg, SysPrefix)
    decreases |log|
  {
    if log == [] then []
    else (if StartsWith(log[0].justMsg, SysPrefix) then [] else [log[0]]) + RagMessages(log[1..])
  }

  // ---------------------------------------------------------------------
  // The store

  class Store {
    /** guild id -> the guild's log, in insertion order. */
    var messages: map<int, seq<Message>>
    /** guild id -> whether the bot listens there; a missing guild reads as false. */
    var listening: map<int, bool>

    /** The state at first start, when neither snapshot exists. */
    constructor ()
      ensures messages == map[] && listening == map[]
    {
      messages := map[];
      listening := map[];
    }

    function Log(guild: int): seq<Message>
      reads this
    {
      Rag.GuildLog(messages, guild)
    }

    predicate IsListening(guild: int)
      reads this
    {
      ListeningIn(listening, guild)
    }

    /** `remember_message`: one text entry at the end of the guild's log. */
    method RememberMessage(when: Moment, who: User, content: string, guild: int, channel: Channel)
      modifies this
      ensures messages == Appended(old(messages), guild, [TextEntry(when, who, content, channel)])
      ensures listening == old(listening)
      ensures Rag.ChannelLog(Log(guild), channel.id)
                == Rag.ChannelLog(old(Log(guild)), channel.id) + [TextEntry(when, who, content, channel)]
    {
      var entry := TextEntry(when, who, content, channel);
      ghost var before := Log(guild);
      if guild !in messages || messages[guild] == [] {
        messages := messages[guild := []];
      }
      assert messages[guild] == before;
      messages := messages[guild := messages[guild] + [entry]];
      Rag.ChannelLogPush(before, entry, channel.id);
    }

    /** `remember_images`: one image entry per saved file, in order. A failed
        download (`None`) makes `encode_image` raise, which ends the call
        with the entries so far appended; `raised` reports that. */
    method RememberImages(when: Moment, who: User, documents: seq<Option<string>>, guild: int,
                          channel: Channel, encode: string -> string)
      returns (images: seq<string>, raised: bool)
      modifies this
      ensures var saved := SavedPrefix(documents);
              raised == (|saved| < |documents|)
              && |images| == |saved| && (forall i :: 0 <= i < |saved| ==> images[i] == encode(saved[i]))
              && messages == Appended(old(messages), guild, ImageEntries(when, who, saved, channel, encode))
      ensures listening == old(listening)
    {
      if guild !in messages || messages[guild] == [] {
        messages := messages[guild := []];
      }
      ghost var saved := SavedPrefix(documents);
      images := [];
      raised := false;
      var i := 0;
      assert messages == Appended(old(messages), guild, ImageEntries(when, who, saved[..0], channel, encode)) by {
        assert ImageEntries(when, who, saved[..0], channel, encode) == [];
        assert Rag.GuildLog(old(messages), guild) + [] == Rag.GuildLog(old(messages), guild);
      }
      while i < |documents|
        invariant 0 <= i <= |saved|
        invariant messages == Appended(old(messages), guild, ImageEntries(when, who, saved[..i], channel, encode))
        invariant |images| == i && forall j :: 0 <= j < i ==> images[j] == encode(saved[j])
        invariant listening == old(listening)
      {
        if documents[i].None? {
          assert i == |saved|;
          assert saved[..i] == saved;
          raised := true;
          return;
        }
        assert i < |saved|;
        var url := documents[i].value;
        assert url == saved[i];
        var base64Image := encode(url);
        EncodedPush(images, saved, i, encode);
        images := images + [base64Image];
        var entry := ImageEntry(when, who, url, base64Image, channel);
        ImageAppendStep(old(messages), messages, guild, when, who, saved, i, channel, encode);
        messages := messages[guild := messages[guild] + [entry]];
        i := i + 1;
      }
      assert saved[..i] == saved;
    }

    /** `/listen` */
    method Listen(guild: int) returns (reply: string)
      modifies this
      ensures listening == old(listening)[guild := true] && messages == old(messages)
      ensures IsListening(guild) && reply == ListenReply
    {
      listening := listening[guild := true];
      reply := ListenReply;
    }

    /** `/stop` */
    method Stop(guild: int) returns (reply: string)
      modifies this
      ensures listening == old(listening)[guild := false] && messages == old(messages)
      ensures !IsListening(guild) && reply == StopReply
    {
      listening := listening[guild := false];
      reply := StopReply;
    }

    /** `/status`: which of the two fixed strings is sent. */
    function Status(guild: int): (r: string)
      reads this
      ensures r == StatusOn <==> IsListening(guild)
      ensures r == StatusOff <==> !IsListening(guild)
      ensures guild !in listening ==> r == StatusOff
    {
      assert StatusOn[16] != StatusOff[16];
      if ListeningIn(listening, guild) then StatusOn else StatusOff
    }

    /** `/forget` as written: `messages.pop` then `listening.pop` in one
        `try`, a `KeyError` from either being swallowed. The reply is fixed;
        `deleteFilter` selects what is deleted from the vector index. */
    method Forget(guild: int) returns (reply: string, deleteFilter: Rag.MetadataFilter)
      modifies this
      ensures (messages, listening) == AfterForget(old(messages), old(listening), guild)
      ensures guild !in messages
      ensures reply == ForgetReply && deleteFilter == Rag.MetadataFilter("guild_id", Rag.EQ, Rag.Int(guild))
    {
      if guild in messages {
        messages := messages - {guild};
        if guild in listening {
          listening := listening - {guild};
        } else {
          assert listening - {guild} == listening;
        }
      }
      reply := ForgetReply;
      deleteFilter := Rag.MetadataFilter("guild_id", Rag.EQ, Rag.Int(guild));
    }

    /** `/forget` as evidently intended: both entries go, whichever exist. */
    method ForgetAll(guild: int) returns (reply: string, deleteFilter: Rag.MetadataFilter)
      modifies this
      ensures (messages, listening) == AfterForgetAll(old(messages), old(listening), guild)
      ensures !IsListening(guild) && Log(guild) == []
      ensures reply == ForgetReply && deleteFilter == Rag.MetadataFilter("guild_id", Rag.EQ, Rag.Int(guild))
    {
      messages := messages - {guild};
      listening := listening - {guild};
      reply := ForgetReply;
      deleteFilter := Rag.MetadataFilter("guild_id", Rag.EQ, Rag.Int(guild));
    }

    /** The checks of `/rag` in order; `Some` holds the fixed reply of the
        first that fails, `None` means the command goes on. */
    function RagGate(guild: int, query: string): (r: Option<string>)
      reads this
      ensures !IsListening(guild) ==> r == Some(RagNotListening)
      ensures IsListening(guild) && query == [] ==> r == Some(EmptyInput)
      ensures IsListening(guild) && query != [] && RagMessages(Log(guild)) == [] ==> r == Some(EmptyKnowledge)
      ensures r == None <==> IsListening(guild) && query != []
                             && exists m <- Log(guild) :: !StartsWith(m.justMsg, SysPrefix)
    {
      if !ListeningIn(listening, guild) then Some(RagNotListening)
      else if |query| == 0 then Some(EmptyInput)
      else if |RagMessages(Rag.GuildLog(messages, guild))| == 0 then Some(EmptyKnowledge)
      else None
    }

    /** What `/rag` sends, in order. Past the gate the query plan goes to
        `engine` (None: the engine raised). After the answer is sent, the
        snowflake timestamp line raises (`timezone` is never imported), so
        while listening the error reply follows and nothing is remembered:
        the command never changes the store. */
    function RagReplies(guild: int, ch: int, query: string, n: int, userName: string, bot: User,
                        engine: Rag.QueryPlan -> Option<string>): (replies: seq<string>)
      reads this
      ensures RagGate(guild, query).Some? ==> replies == [RagGate(guild, query).value]
      ensures RagGate(guild, query).None? ==> |replies| >= 1 && replies[|replies| - 1] == ErrorReply
    {
      match RagGate(guild, query)
      case Some(refusal) => [refusal]
      case None =>
        match engine(Rag.AnswerQuery(messages, guild, ch, query, n, userName, bot.display))
        case None => [ErrorReply]
        case Some(answer) =>
          Segmenter.ChunkReply(answer) + (if ListeningIn(listening, guild) then [ErrorReply] else [])
    }

    /** `/rag` as evidently intended: after the answer is sent, the exchange
        is remembered and indexed while the guild is listened to, at time
        `when` (the interaction's snowflake time). */
    method RagAndRemember(guild: int, channel: Channel, query: string, n: int, userName: string, bot: User,
                          when: Moment, engine: Rag.QueryPlan -> Option<string>)
      returns (replies: seq<string>, indexed: seq<Rag.Node>)
      modifies this
      ensures listening == old(listening)
      ensures old(RagGate(guild, query)).Some? ==>
                messages == old(messages) && indexed == [] && replies == [old(RagGate(guild, query)).value]
      ensures var answer := engine(Rag.AnswerQuery(old(messages), guild, channel.id, query, n, userName, bot.display));
              old(RagGate(guild, query)).None? && answer.Some? ==>
                replies == Segmenter.ChunkReply(answer.value)
                && messages == Appended(old(messages), guild, [TextEntry(when, bot, answer.value, channel)])
                && indexed == [Rag.IndexMessage(when, bot, answer.value, guild, channel)]
      ensures var answer := engine(Rag.AnswerQuery(old(messages), guild, channel.id, query, n, userName, bot.display));
              old(RagGate(guild, query)).None? && answer.None? ==>
                messages == old(messages) && indexed == [] && replies == [ErrorReply]
    {
      indexed := [];
      var refusal := RagGate(guild, query);
      if refusal.Some? {
        replies := [refusal.value];
        return;
      }
      var answer := engine(Rag.AnswerQuery(messages, guild, channel.id, query, n, userName, bot.display));
      if answer.None? {
        replies := [ErrorReply];
        return;
      }
      replies := Segmenter.ChunkReply(answer.value);
      if ListeningIn(listening, guild) {
        RememberMessage(when, bot, answer.value, guild, channel);
        indexed := [Rag.IndexMessage(when, bot, answer.value, guild, channel)];
      }
    }

    /** The listening branch of `on_message`: download the image
        attachments and remember and index them, then remember and index the
        text. `raised` reports that `remember_images` met a failed download,
        which ends `on_message` with only the images before it stored. */
    method RecordIncoming(msg: Incoming, content: string, downloadOk: string -> bool, encode: string -> string)
      returns (indexed: seq<Rag.Node>, raised: bool)
      requires msg.guild.Some?
      modifies this
      ensures listening == old(listening)
      ensures raised == DownloadFails(msg, downloadOk)
      ensures raised ==> indexed == [] && messages == Appended(old(messages), msg.guild.value, ImageBatch(msg, downloadOk, encode))
      ensures !raised ==>
                indexed == ImageNodes(msg, downloadOk, encode)
                           + [Rag.IndexMessage(msg.createdAt, msg.author, content, msg.guild.value, msg.channel)]
                && messages == Recorded(old(messages), msg, content, downloadOk, encode)
    {
      var g := msg.guild.value;
      var imageUrls := ImageUrls(msg.attachments);
      indexed := [];
      raised := false;
      ghost var before := messages;
      if imageUrls != [] {
        var documents := Rag.DownloadAndCreateImages(imageUrls, downloadOk);
        var images;
        images, raised := RememberImages(msg.createdAt, msg.author, documents, g, msg.channel, encode);
        if raised {
          return;
        }
        indexed := Rag.IndexImages(msg.createdAt, msg.author, images, g, msg.channel);
        NodesOfSavedImages(indexed, images, msg, downloadOk, encode);
        RememberMessage(msg.createdAt, msg.author, content, g, msg.channel);
        AppendedTwice(before, g, ImageBatch(msg, downloadOk, encode), [UserEntry(msg, content)]);
      } else {
        NoImages(msg, downloadOk, encode);
        RememberMessage(msg.createdAt, msg.author, content, g, msg.channel);
        assert [] + [UserEntry(msg, content)] == [UserEntry(msg, content)];
      }
      indexed := indexed + [Rag.IndexMessage(msg.createdAt, msg.author, content, g, msg.channel)];
    }

    /** The mention branch of `on_message`: refuse when not listening or
        when the text is empty, otherwise answer from the chat history and,
        while listening, remember and index the answer. `llm` answers a
        chat history (None: the model raised). */
    method ReplyToMention(msg: Incoming, content: string, bot: User, llm: seq<Rag.ChatMessage> -> Option<string>)
      returns (replies: seq<string>, indexed: seq<Rag.Node>)
      requires msg.guild.Some?
      modifies this
      ensures listening == old(listening)
      ensures !ListeningIn(listening, msg.guild.value) ==>
                messages == old(messages) && indexed == [] && replies == [MentionNotListening]
      ensures ListeningIn(listening, msg.guild.value) && content == [] ==>
                messages == old(messages) && indexed == [] && replies == [EmptyMention]
      ensures var answer := llm(MentionHistory(old(messages), msg, bot));
              ListeningIn(listening, msg.guild.value) && content != [] ==>
                (answer.None? ==> messages == old(messages) && indexed == [] && replies == [ErrorReply])
                && (answer.Some? ==>
                      replies == Segmenter.ChunkReply(answer.value)
                      && messages == Appended(old(messages), msg.guild.value, [TextEntry(msg.createdAt, bot, answer.value, msg.channel)])
                      && indexed == [Rag.IndexMessage(msg.createdAt, bot, answer.value, msg.guild.value, msg.channel)])
    {
      var g := msg.guild.value;
      indexed := [];
      if !ListeningIn(listening, g) {
        replies := [MentionNotListening];
        return;
      }
      if content == [] {
        replies := [EmptyMention];
        return;
      }
      var history := Rag.ChatRepl(messages, g, msg.channel.id, bot.display);
      var answer := llm(history);
      if answer.None? {
        replies := [ErrorReply];
        return;
      }
      replies := Segmenter.ChunkReply(answer.value);
      RememberMessage(msg.createdAt, bot, answer.value, g, msg.channel);
      indexed := [Rag.IndexMessage(msg.createdAt, bot, answer.value, g, msg.channel)];
    }

    /** `on_message`. `downloadOk` says which image downloads succeed and
        `encode` is `encode_image`. `replies` is what is sent back, in order;
        `indexed` what is inserted into the vector index, in order. */
    method OnMessage(msg: Incoming, bot: User, downloadOk: string -> bool, encode: string -> string,
                     llm: seq<Rag.ChatMessage> -> Option<string>)
      returns (replies: seq<string>, indexed: seq<Rag.Node>)
      modifies this
      ensures listening == old(listening)
      ensures var content := RewriteMentions(msg.content, msg.mentions);
              msg.author.id == bot.id || StartsWith(content, "/") ==>
                messages == old(messages) && replies == [] && indexed == []
      ensures var content := RewriteMentions(msg.content, msg.mentions);
              msg.author.id != bot.id && !StartsWith(content, "/") && msg.guild.None? ==>
                messages == old(messages) && replies == [] && indexed == []
      ensures var content := RewriteMentions(msg.content, msg.mentions);
              msg.author.id != bot.id && !StartsWith(content, "/") && msg.guild.Some? && !ListeningIn(old(listening), msg.guild.value) ==>
                messages == old(messages) && indexed == []
                && replies == (if msg.mentionsBot then [MentionNotListening] else [])
      ensures var content := RewriteMentions(msg.content, msg.mentions);
              msg.author.id != bot.id && !StartsWith(content, "/") && msg.guild.Some? && ListeningIn(old(listening), msg.guild.value)
              && UntypedAttachment(msg) ==>
                messages == old(messages) && replies == [] && indexed == []
      ensures var content := RewriteMentions(msg.content, msg.mentions);
              msg.author.id != bot.id && !StartsWith(content, "/") && msg.guild.Some? && ListeningIn(old(listening), msg.guild.value)
              && !UntypedAttachment(msg)
              && DownloadFails(msg, downloadOk) ==>
                messages == Appended(old(messages), msg.guild.value, ImageBatch(msg, downloadOk, encode))
                && replies == [] && indexed == []
      ensures var content := RewriteMentions(msg.content, msg.mentions);
              msg.author.id != bot.id && !StartsWith(content, "/") && msg.guild.Some? ==>
              var userNode := Rag.IndexMessage(msg.createdAt, msg.author, content, msg.guild.value, msg.channel);
              ListeningIn(old(listening), msg.guild.value)
              && !UntypedAttachment(msg)
              && !DownloadFails(msg, downloadOk) && (!msg.mentionsBot || content == []) ==>
                messages == Recorded(old(messages), msg, content, downloadOk, encode)
                && indexed == ImageNodes(msg, downloadOk, encode) + [userNode]
                && replies == (if msg.mentionsBot then [EmptyMention] else [])
      ensures var content := RewriteMentions(msg.content, msg.mentions);
              msg.author.id != bot.id && !StartsWith(content, "/") && msg.guild.Some? ==>
              var g := msg.guild.value;
              var recorded := Recorded(old(messages), msg, content, downloadOk, encode);
              var answer := llm(MentionHistory(recorded, msg, bot));
              var userNode := Rag.IndexMessage(msg.createdAt, msg.author, content, g, msg.channel);
              ListeningIn(old(listening), g)
              && !UntypedAttachment(msg)
              && !DownloadFails(msg, downloadOk) && msg.mentionsBot && content != [] ==>
                (answer.None? ==>
                   messages == recorded && indexed == ImageNodes(msg, downloadOk, encode) + [userNode]
                   && replies == [ErrorReply])
                && (answer.Some? ==>
                      messages == Appended(recorded, g, [TextEntry(msg.createdAt, bot, answer.value, msg.channel)])
                      && indexed == ImageNodes(msg, downloadOk, encode)
                                    + [userNode, Rag.IndexMessage(msg.createdAt, bot, answer.value, g, msg.channel)]
                      && replies == Segmenter.ChunkReply(answer.value))
    {
      replies, indexed := [], [];
      var content := ProcessIncomingMessage(msg.content, msg.mentions);
      if msg.author.id == bot.id {
        return;
      }
      if StartsWith(content, "/") {
        return;  // handed to the prefix-command processor
      }
      if msg.guild.None? {
        return;  // a direct message: reading `message.guild.id` raises
      }
      if ListeningIn(listening, msg.guild.value) {
        if UntypedAttachment(msg) {
          return;  // collecting the image URLs raises
        }
        var raised;
        indexed, raised := RecordIncoming(msg, content, downloadOk, encode);
        if raised {
          return;  // the exception leaves on_message
        }
      }
      if msg.mentionsBot {
        var more;
        replies, more := ReplyToMention(msg, content, bot, llm);
        indexed := indexed + more;
        AppendAfter(ImageNodes(msg, downloadOk, encode),
                    Rag.IndexMessage(msg.createdAt, msg.author, content, msg.guild.value, msg.channel), more);
      }
    }
  }

  // ---------------------------------------------------------------------
  // /forget, as written and as intended

  /** The two maps after `/forget` as written: the `listening` pop is only
      reached when the `messages` pop did not raise. */
  function AfterForget(messages: map<int, seq<Message>>, listening: map<int, bool>, guild: int)
    : (r: (map<int, seq<Message>>, map<int, bool>))
    ensures guild !in r.0
    ensures guild in messages ==> guild !in r.1 && r.1 == listening - {guild}
    ensures guild !in messages ==> r == (messages, listening)
    ensures forall h :: h != guild ==> (Rag.GuildLog(r.0, h) == Rag.GuildLog(messages, h)
                                       && ListeningIn(r.1, h) == ListeningIn(listening, h))
  {
    if guild in messages then (messages - {guild}, listening - {guild}) else (messages, listening)
  }

  /** The two maps after `/forget` as intended: both entries removed. */
  function AfterForgetAll(messages: map<int, seq<Message>>, listening: map<int, bool>, guild: int)
    : (r: (map<int, seq<Message>>, map<int, bool>))
    ensures guild !in r.0 && guild !in r.1
    ensures forall h :: h != guild ==> (Rag.GuildLog(r.0, h) == Rag.GuildLog(messages, h)
                                       && ListeningIn(r.1, h) == ListeningIn(listening, h))
  {
    (messages - {guild}, listening - {guild})
  }

  /** As written, a guild that is listened to but has never had a message
      remembered is still listened to after `/forget`, although the reply
      says listening stopped. */
  lemma ForgetKeepsListening()
    ensures var r := AfterForget(map[], map[7 := true], 7);
            ListeningIn(r.1, 7)
  {
  }

  /** As intended, `/forget` leaves the guild not listened to and with an
      empty log, and a second `/forget` changes nothing. */
  lemma ForgetAllStops(messages: map<int, seq<Message>>, listening: map<int, bool>, guild: int)
    ensures var r := AfterForgetAll(messages, listening, guild);
            !ListeningIn(r.1, guild) && Rag.GuildLog(r.0, guild) == []
            && AfterForgetAll(r.0, r.1, guild) == r
  {
    var r := AfterForgetAll(messages, listening, guild);
    assert r.0 - {guild} == r.0;
    assert r.1 - {guild} == r.1;
  }

  /** As written, `/forget` is idempotent: the second call changes nothing. */
  lemma ForgetIdempotent(messages: map<int, seq<Message>>, listening: map<int, bool>, guild: int)
    ensures var r := AfterForget(messages, listening, guild);
            AfterForget(r.0, r.1, guild) == r
  {
  }
}
