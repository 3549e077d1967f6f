/** The record the bot remembers for every utterance (models/message.py) and
    the text it derives from the people, channels and times involved. */
module Models {
  import opened PyText

  /** A Discord user as the bot sees one: the snowflake `id` (what user
      equality compares), the handle `name`, and `display`, which is `str(user)`. */
  datatype User = User(id: nat, name: string, display: string)

  /** A channel: its `id`, `display` (`str(channel)`) and `kind` (`str(channel.type)`). */
  datatype Channel = Channel(id: int, display: string, kind: string)

  /** A timestamp, kept as the two renderings the bot uses:
      `stamp` is `strftime('%m-%d-%Y %H:%M:%S')` and `iso` is `str(when)`. */
  datatype Moment = Moment(stamp: string, iso: string)

  /** One remembered entry; `isInThread` and `isImage` default to false in the source. */
  datatype Message = Message(
    isInThread: bool,
    isImage: bool,
    messageStr: string,
    postedAt: Moment,
    author: string,
    channelId: int,
    justMsg: string)

  const PublicThread := "public_thread"

  /** The at most 15 leading characters of `str(channel)` used as its tag. */
  function ChannelTag(channel: Channel): (tag: string)
    ensures |tag| == Min(|channel.display|, 15)
    ensures channel.display == tag + channel.display[|tag|..]
  {
    PySlice(channel.display, 0, 15)
  }

  /** The human-readable rendering shared by the log and the vector index:
      `[<stamp>] - @<who> on #[<channel tag>]: `<content>``. */
  function MessageStr(when: Moment, who: User, channel: Channel, content: string): (r: string)
    ensures StartsWith(r, "[" + when.stamp + "]")
    ensures |r| > |content| + 1 && r[|r| - 1] == '`' && r[|r| - 2 - |content|] == '`'
    ensures r[|r| - 1 - |content|..|r| - 1] == content
  {
    var head := "[" + when.stamp + "] - @" + who.display + " on #[" + ChannelTag(channel) + "]: `";
    var r := head + content + "`";
    assert r == "[" + when.stamp + "]" + (" - @" + who.display + " on #[" + ChannelTag(channel) + "]: `" + content + "`");
    assert r[|head|..|head| + |content|] == content;
    r
  }

  /** The entry `remember_message` appends for a text message. */
  function TextEntry(when: Moment, who: User, content: string, channel: Channel): (m: Message)
    ensures !m.isImage && m.justMsg == content && m.channelId == channel.id && m.author == who.display
    ensures m.isInThread <==> channel.kind == PublicThread
    ensures |m.messageStr| > |content| && m.messageStr[|m.messageStr| - 1 - |content|..|m.messageStr| - 1] == content
  {
    Message(channel.kind == PublicThread, false, MessageStr(when, who, channel, content),
            when, who.display, channel.id, content)
  }

  /** `path[path.rfind('.') + 1:]`: the file extension an image is stored under. */
  function ImageSuffix(path: string): (ext: string)
    ensures |ext| <= |path| && path[|path| - |ext|..] == ext
  {
    PySlice(path, RFind(path, ".", 0, |path|) + 1, |path|)
  }

  /** The suffix is what follows the last '.' (and holds no '.'), or the
      whole path when the path has no '.'. */
  lemma ImageSuffixAfterLastDot(path: string)
    ensures var ext := ImageSuffix(path);
            Contains(path, ".") ==>
              !Contains(ext, ".") && |ext| < |path| && path[|path| - |ext| - 1] == '.'
              && path[|path| - |ext|..] == ext
    ensures !Contains(path, ".") ==> ImageSuffix(path) == path
  {
    var dot := RFind(path, ".", 0, |path|);
    var ext := ImageSuffix(path);
    if Contains(path, ".") {
      var i :| 0 <= i <= |path| && OccursAt(path, ".", i);
      assert dot >= i;
      assert ext == path[dot + 1..];
      forall j | 0 <= j <= |ext| && OccursAt(ext, ".", j) ensures false {
        assert path[dot + 1 + j] == ext[j];
        assert OccursAt(path, ".", dot + 1 + j);
      }
    } else {
      assert dot == -1;
    }
  }

  /** The RFC 2397 data URL `data:image/<ext>;base64,<enc>` under which an
      image is remembered; `enc` is the RFC 4648 base64 text, taken as given. */
  function ImageDataUrl(ext: string, enc: string): (url: string)
    ensures StartsWith(url, "data:image/")
    ensures |url| >= |enc| && url[|url| - |enc|..] == enc
  {
    "data:image/" + ext + ";base64," + enc
  }

  const DataUrlHead := "data:image/"
  const Base64Marker := ";base64,"

  /** Reads an image data URL back into its extension and base64 text. */
  function ParseImageDataUrl(url: string): Option<(string, string)>
  {
    if !StartsWith(url, DataUrlHead) then None
    else
      var rest := url[|DataUrlHead|..];
      var semi := Find(rest, ";", 0, |rest|);
      if semi == -1 || !StartsWith(rest[semi..], Base64Marker) then None
      else Some((rest[..semi], rest[semi + |Base64Marker|..]))
  }

  /** Round trip: an extension without ';' and its base64 text are recovered
      from the data URL built from them. */
  lemma ImageDataUrlRoundTrip(ext: string, enc: string)
    requires !Contains(ext, ";")
    ensures ParseImageDataUrl(ImageDataUrl(ext, enc)) == Some((ext, enc))
  {
    var url := ImageDataUrl(ext, enc);
    assert url[..|DataUrlHead|] == DataUrlHead;
    var rest := url[|DataUrlHead|..];
    assert rest == ext + Base64Marker + enc;
    var semi := Find(rest, ";", 0, |rest|);
    assert OccursAt(rest, ";", |ext|);
    assert semi != -1 && semi <= |ext|;
    if semi < |ext| {
      assert rest[semi] == ext[semi];
      assert OccursAt(ext, ";", semi);
    }
    assert rest[..semi] == ext;
    assert rest[semi..] == Base64Marker + enc;
    assert rest[semi + |Base64Marker|..] == enc;
  }

  /** The entry `remember_images` appends for one saved image file. */
  function ImageEntry(when: Moment, who: User, path: string, enc: string, channel: Channel): (m: Message)
    ensures m.isImage && m.messageStr == path && m.channelId == channel.id && m.author == who.display
    ensures !Contains(ImageSuffix(path), ";") ==> ParseImageDataUrl(m.justMsg) == Some((ImageSuffix(path), enc))
  {
    var ext := ImageSuffix(path);
    var m := Message(channel.kind == PublicThread, true, path, when, who.display, channel.id,
                     ImageDataUrl(ext, enc));
    if !Contains(ext, ";") then ImageDataUrlRoundTrip(ext, enc); m else m
  }
}
