/** ConverterBot: the Telegram bot that turns a .webm or .gif document into
    an .mp4. The Telegram API, the file download, ffmpeg and the text
    resources are inputs; the model computes which messages the bot sends
    for one update. */
module ConverterBot {
  import opened Text

  datatype Document = Document(fileName: Option<string>)

  /** A message with its chat id, its text (null or empty when it has none)
      and its document. */
  datatype Message = Message(chatId: int, text: Option<string>, document: Option<Document>)

  datatype Update = Update(message: Option<Message>)

  /** What the bot sends back. */
  datatype Reply =
    | SendText(chat: int, text: string)
    | SendDocument(chat: int, path: string, caption: string)

  /** What the environment gives a handler: the random texts picked from the
      resources, the absolute path of the downloaded input file (or what the
      download threw), and ffmpeg's exit status (or what starting or
      waiting for it threw). */
  datatype Probes = Probes(
    welcome: string,
    done: string,
    download: Result<string>,
    ffmpeg: Result<int>)

  // ---------------------------------------------------------------- routing

  /** Message.hasText(). */
  predicate HasText(m: Message) {
    m.text.Some? && m.text.value != []
  }

  datatype Route = Start(m: Message) | Convert(m: Message, doc: Document) | NoRoute

  /** onUpdateReceived's dispatch: the exact text "/start" wins over a
      document; every other update is left alone. */
  function Dispatch(u: Update): (r: Route)
    ensures r.Start? ==> u.message == Some(r.m) && r.m.text == Some("/start")
    ensures r.Convert? ==> u.message == Some(r.m) && r.m.document == Some(r.doc) && r.m.text != Some("/start")
    ensures r.NoRoute? <==> u.message.None? || (u.message.value.text != Some("/start") && u.message.value.document.None?)
  {
    match u.message
    case None => NoRoute
    case Some(m) =>
      if HasText(m) && m.text.value == "/start" then Start(m)
      else if m.document.Some? then Convert(m, m.document.value)
      else NoRoute
  }

  // ---------------------------------------------------------------- texts

  const WRONG_TYPE: string := "Please send a .webm or .gif file to convert."
  const CONVERSION_FAILED: string :=
    "[ERROR ☢️☣️] An error occurred during file conversion. Please try again. ❌"
  const GENERIC_ERROR: string := "An error occurred while processing your request. Please try again."
  const SUCCESS_TAG: string := "[SUCCESS ✅] "

  /** getRandomText's fallback when the resource cannot be read, has no
      usable array for the key, or the array is empty. */
  function FallbackText(key: string): (r: string)
    ensures key !in {"welcome", "done", "wrongtype"} ==> r == "Message not found."
    ensures key in {"welcome", "done", "wrongtype"} ==> r != "Message not found."
  {
    if key == "welcome" then "Welcome! Send me a .webm and I'll turn it into an .mp4 for you."
    else if key == "done" then "Done! Your mp4 is ready."
    else if key == "wrongtype" then "Unsupported file type. Please send a .webm or .gif file."
    else "Message not found."
  }

  /** getRandomText(key, file): one entry of the key's array, chosen by the
      random draw `pick` (Random.nextInt(length)), or the fallback when the
      array could not be read (None) or is empty. */
  function RandomText(key: string, entries: Option<seq<string>>, pick: nat): (r: string)
    ensures entries.Some? && entries.value != [] ==> r in entries.value
    ensures entries.None? || entries.value == [] ==> r == FallbackText(key)
  {
    if entries.Some? && entries.value != [] then entries.value[pick % |entries.value|]
    else FallbackText(key)
  }

  /** The welcome reply to "/start" (the waving hand is U+1F44B): the
      drawn text between the success tag and the emoji. */
  function WelcomeText(welcome: string): (r: string)
    ensures |r| == |SUCCESS_TAG| + |welcome| + 2
    ensures StartsWith(r, SUCCESS_TAG) && EndsWith(r, " \U{1F44B}")
    ensures r[|SUCCESS_TAG|..|r| - 2] == welcome
  {
    Tagged(welcome, " \U{1F44B}")
  }

  /** The caption of the converted file (the clapper board is U+1F3AC). */
  function DoneCaption(done: string): (r: string)
    ensures |r| == |SUCCESS_TAG| + |done| + 2
    ensures StartsWith(r, SUCCESS_TAG) && EndsWith(r, " \U{1F3AC}")
    ensures r[|SUCCESS_TAG|..|r| - 2] == done
  {
    Tagged(done, " \U{1F3AC}")
  }

  /** A drawn text between the success tag and a two-character ending. */
  function Tagged(text: string, ending: string): (r: string)
    requires |ending| == 2
    ensures |r| == |SUCCESS_TAG| + |text| + 2
    ensures StartsWith(r, SUCCESS_TAG) && EndsWith(r, ending)
    ensures r[|SUCCESS_TAG|..|r| - 2] == text
  {
    Framed(SUCCESS_TAG, text, ending);
    SUCCESS_TAG + text + ending
  }

  // ---------------------------------------------------------------- documents

  /** handleDocument's gate: a file name that ends, letter case included,
      with .webm or .gif. */
  predicate Accepts(fileName: Option<string>) {
    fileName.Some? && (EndsWith(fileName.value, ".webm") || EndsWith(fileName.value, ".gif"))
  }

  /** The path with one trailing ".tmp" removed. */
  function StripTmp(path: string): (r: string)
    ensures EndsWith(path, ".tmp") ==> path == r + ".tmp"
    ensures !EndsWith(path, ".tmp") ==> r == path
  {
    if EndsWith(path, ".tmp") then path[..|path| - 4] else path
  }

  /** How many characters convertToMp4 cuts before appending ".mp4": five
      for a .webm original, four for a .gif, none otherwise. */
  function ExtensionLength(fileName: string): nat {
    if EndsWith(fileName, ".webm") then 5 else if EndsWith(fileName, ".gif") then 4 else 0
  }

  /** The output path of convertToMp4, or None where `substring` would throw
      because the (stripped) input path is shorter than the cut. */
  function Mp4Path(inputPath: string, fileName: string): (r: Option<string>)
    ensures r.Some? <==> ExtensionLength(fileName) <= |StripTmp(inputPath)|
    ensures r.Some? ==> EndsWith(r.value, ".mp4")
    ensures r.Some? ==> r.value[..|r.value| - 4] == StripTmp(inputPath)[..|StripTmp(inputPath)| - ExtensionLength(fileName)]
  {
    var name := StripTmp(inputPath);
    var cut := ExtensionLength(fileName);
    if cut <= |name| then
      var r := name[..|name| - cut] + ".mp4";
      assert r[|r| - 4..] == ".mp4";
      Some(r)
    else None
  }

  /** The cut for an original named `name + ext` is the length of ext. */
  lemma ExtensionOfName(name: string, ext: string)
    requires ext == ".webm" || ext == ".gif"
    ensures ExtensionLength(name + ext) == |ext|
  {
    var f := name + ext;
    assert f[|f| - |ext|..] == ext;
    if ext == ".gif" && |f| >= 5 {
      assert f[|f| - 5..][1] == '.';
    }
  }

  /** A path that does not end in ".tmp" comes back from StripTmp as it
      was, with or without one ".tmp" added. */
  lemma StripTmpAdded(path: string, tmp: bool)
    requires !EndsWith(path, ".tmp")
    ensures StripTmp(path + (if tmp then ".tmp" else "")) == path
  {
    var input := path + (if tmp then ".tmp" else "");
    if tmp {
      assert input[|input| - 4..] == ".tmp";
      assert input[..|input| - 4] == path;
    }
  }

  lemma ExtensionNotTmp(base: string, ext: string)
    requires ext == ".webm" || ext == ".gif"
    ensures !EndsWith(base + ext, ".tmp")
  {
    var p := base + ext;
    if ext == ".webm" {
      assert p[|p| - 4..][0] == 'w';
    } else {
      assert p[|p| - 4..][1] == 'g';
    }
  }

  /** An input file that carries the original's extension (with or without
      the download's ".tmp") gets that extension replaced by ".mp4". */
  lemma Mp4ReplacesExtension(base: string, name: string, ext: string, tmp: bool)
    requires ext == ".webm" || ext == ".gif"
    ensures var input := base + ext + (if tmp then ".tmp" else "");
      Mp4Path(input, name + ext) == Some(base + ".mp4")
  {
    var p := base + ext;
    ExtensionNotTmp(base, ext);
    StripTmpAdded(p, tmp);
    ExtensionOfName(name, ext);
    assert p[..|p| - |ext|] == base;
  }

  /** The ffmpeg command line: re-encode the input at 30 frames a second,
      overwriting the output. */
  function FfmpegCommand(ffmpegPath: string, inputPath: string, mp4Path: string): (argv: seq<string>)
    ensures |argv| == 7 && argv[0] == ffmpegPath && argv[6] == mp4Path
    ensures argv[2] == "-i" && argv[3] == inputPath
  {
    [ffmpegPath, "-y", "-i", inputPath, "-r", "30", mp4Path]
  }

  /** convertToMp4: the output path, or the exception; a nonzero exit of
      ffmpeg is an IOException. */
  function ConvertToMp4(inputPath: string, fileName: string, ffmpeg: Result<int>): (r: Result<string>)
    ensures r.Ok? <==> Mp4Path(inputPath, fileName).Some? && ffmpeg == Ok(0)
    ensures r.Ok? ==> Some(r.value) == Mp4Path(inputPath, fileName)
  {
    var out := Mp4Path(inputPath, fileName);
    if out.None? then Thrown(OtherError("StringIndexOutOfBoundsException", ""))
    else match ffmpeg
      case Thrown(e) => Thrown(e)
      case Ok(code) =>
        if code != 0 then Thrown(IOError("IOException", "ffmpeg conversion failed"))
        else Ok(out.value)
  }

  /** handleDocument: the wrong-type notice, the converted file with its
      caption, or the conversion-error notice. */
  function HandleDocument(m: Message, doc: Document, p: Probes): (r: seq<Reply>)
    ensures |r| == 1 && r[0].chat == m.chatId
    ensures !Accepts(doc.fileName) <==> r == [SendText(m.chatId, WRONG_TYPE)]
    ensures r[0].SendDocument? <==>
      Accepts(doc.fileName) && p.download.Ok? && ConvertToMp4(p.download.value, doc.fileName.value, p.ffmpeg).Ok?
    ensures r[0].SendDocument? ==>
      r[0].path == ConvertToMp4(p.download.value, doc.fileName.value, p.ffmpeg).value
      && r[0].caption == DoneCaption(p.done)
    ensures Accepts(doc.fileName) && !r[0].SendDocument? ==> r == [SendText(m.chatId, CONVERSION_FAILED)]
  {
    if !Accepts(doc.fileName) then [SendText(m.chatId, WRONG_TYPE)]
    else match p.download
      case Thrown(_) => [SendText(m.chatId, CONVERSION_FAILED)]
      case Ok(input) =>
        match ConvertToMp4(input, doc.fileName.value, p.ffmpeg)
        case Thrown(_) => [SendText(m.chatId, CONVERSION_FAILED)]
        case Ok(mp4) => [SendDocument(m.chatId, mp4, DoneCaption(p.done))]
  }

  /** onUpdateReceived: the replies to one update. `escaped` is an exception
      that escaped the handler's own try blocks; it turns into the generic
      error notice to the message's chat. */
  function OnUpdate(u: Update, p: Probes, escaped: Option<Exception>): (r: seq<Reply>)
    ensures Dispatch(u).NoRoute? ==> r == []
    ensures !Dispatch(u).NoRoute? && escaped.Some? ==> r == [SendText(u.message.value.chatId, GENERIC_ERROR)]
    ensures Dispatch(u).Start? && escaped.None? ==> r == [SendText(u.message.value.chatId, WelcomeText(p.welcome))]
  {
    match Dispatch(u)
    case NoRoute => []
    case Start(m) =>
      if escaped.Some? then [SendText(m.chatId, GENERIC_ERROR)] else [SendText(m.chatId, WelcomeText(p.welcome))]
    case Convert(m, doc) =>
      if escaped.Some? then [SendText(m.chatId, GENERIC_ERROR)] else HandleDocument(m, doc, p)
  }

  /** Every handled update gets exactly one reply, in its own chat, and a
      converted file is sent only for an accepted name, under a path ending
      in ".mp4". */
  lemma OneReplyPerHandledUpdate(u: Update, p: Probes, escaped: Option<Exception>)
    ensures var r := OnUpdate(u, p, escaped);
      && (|r| == 1 <==> !Dispatch(u).NoRoute?)
      && (r != [] ==> r[0].chat == u.message.value.chatId)
      && (r != [] && r[0].SendDocument? ==>
            && u.message.value.document.Some?
            && Accepts(u.message.value.document.value.fileName)
            && EndsWith(r[0].path, ".mp4"))
  {
    var r := OnUpdate(u, p, escaped);
    if r != [] && r[0].SendDocument? {
      var m := u.message.value;
      var doc := m.document.value;
      assert Dispatch(u) == Convert(m, doc);
      var out := ConvertToMp4(p.download.value, doc.fileName.value, p.ffmpeg);
      assert r[0].path == out.value;
    }
  }

  /** "/start" is answered with the welcome even when a document is attached. */
  lemma StartBeforeDocument(chat: int, doc: Document, p: Probes)
    ensures OnUpdate(Update(Some(Message(chat, Some("/start"), Some(doc)))), p, None)
      == [SendText(chat, WelcomeText(p.welcome))]
  {
  }

  /** A nonzero ffmpeg exit is reported to the user as the conversion error. */
  lemma FfmpegFailureReported(m: Message, doc: Document, p: Probes)
    requires Accepts(doc.fileName) && p.download.Ok? && p.ffmpeg.Ok? && p.ffmpeg.value != 0
    ensures HandleDocument(m, doc, p) == [SendText(m.chatId, CONVERSION_FAILED)]
  {
  }
}
