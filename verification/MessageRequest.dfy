/** The message a chat is sent and the file references read back out of it (messageRequest.ts). */
module MessageRequest {
  import opened Basics
  import opened CodeUnits
  import opened Json
  import opened JsonPrinter

  const FRAME_BYTES: nat := 16 * 1024 * 1024
  const ROUTING_BYTES: nat := 128
  const MAX_IMAGES: nat := 4
  const MAX_ATTACHMENTS: nat := 16

  const OPEN_LINE: Text := Units("[Attached local files and folders]")
  const CLOSE_LINE: Text := Units("[/Attached local files and folders]")
  const ADVICE: Text := Units("Read these local paths as needed ") + (Units("with your tools. ") + Units("Ask for access when required."))
  const LOCAL_FILES: Text := [NEWLINE] + ([NEWLINE] + (OPEN_LINE + [NEWLINE]))
  const FILES_END: Text := [NEWLINE] + (CLOSE_LINE + ([NEWLINE] + ADVICE))

  const CONTENT: Text := Units("content")
  const DATA: Text := Units("data")
  const FILE: Text := Units("file")
  const FOLDER: Text := Units("folder")
  const ID: Text := Units("id")
  const IMAGES: Text := Units("images")
  const KIND: Text := Units("kind")
  const METHOD: Text := Units("method")
  const MIME: Text := Units("mime")
  const NAME: Text := Units("name")
  const PARAMS: Text := Units("params")
  const PATH: Text := Units("path")
  const SEND: Text := Units("message.send")

  datatype Attachment =
    | Image(id: Text, name: Text, mime: Text, data: Text)
    | Local(folder: bool, id: Text, name: Text, path: Text)

  datatype Params = Params(content: Text, images: seq<Attachment>)

  datatype Error = TooManyAttachments | TooLarge

  datatype Result<+T> = Ok(value: T) | Err(error: Error)

  function Images(attachments: seq<Attachment>): (images: seq<Attachment>)
    ensures forall k :: 0 <= k < |images| ==> images[k].Image?
  {
    if attachments == [] then []
    else (if attachments[0].Image? then [attachments[0]] else []) + Images(attachments[1..])
  }

  function Locals(attachments: seq<Attachment>): (files: seq<Attachment>)
    ensures forall k :: 0 <= k < |files| ==> files[k].Local?
    ensures |files| <= |attachments|
  {
    if attachments == [] then []
    else (if attachments[0].Local? then [attachments[0]] else []) + Locals(attachments[1..])
  }

  function FileValue(file: Attachment): Value
    requires file.Local?
  {
    Obj([Member(KIND, Str(if file.folder then FOLDER else FILE)), Member(NAME, Str(file.name)), Member(PATH, Str(file.path))])
  }

  function FileValues(files: seq<Attachment>): (values: seq<Value>)
    requires forall k :: 0 <= k < |files| ==> files[k].Local?
    ensures |values| == |files|
    ensures forall k :: 0 <= k < |files| ==> values[k] == FileValue(files[k])
  {
    seq(|files|, k requires 0 <= k < |files| => FileValue(files[k]))
  }

  function ImageValue(image: Attachment): Value
    requires image.Image?
  {
    Obj([Member(ID, Str(image.id)), Member(NAME, Str(image.name)), Member(MIME, Str(image.mime)), Member(DATA, Str(image.data))])
  }

  function FrameValue(params: Params): Value
    requires forall k :: 0 <= k < |params.images| ==> params.images[k].Image?
  {
    var images := seq(|params.images|, k requires 0 <= k < |params.images| => ImageValue(params.images[k]));
    Obj([Member(ID, Num([ZERO])), Member(METHOD, Str(SEND)),
         Member(PARAMS, Obj([Member(CONTENT, Str(params.content)), Member(IMAGES, Arr(images))]))])
  }

  function ContentWith(content: Text, files: seq<Attachment>): Text
    requires forall k :: 0 <= k < |files| ==> files[k].Local?
  {
    if files == [] then content
    else content + (LOCAL_FILES + (Print(Arr(FileValues(files))) + FILES_END))
  }

  function Request(content: Text, attachments: seq<Attachment>): Result<Params> {
    if |Images(attachments)| > MAX_IMAGES || |attachments| > MAX_ATTACHMENTS then Err(TooManyAttachments)
    else
      var params := Params(ContentWith(content, Locals(attachments)), Images(attachments));
      if Utf8Length(Print(FrameValue(params))) + ROUTING_BYTES > FRAME_BYTES then Err(TooLarge)
      else Ok(params)
  }

  // Reading the references back.

  /** `text.lastIndexOf(pattern)`, looking no later than at `from`. */
  function LastIndexOf(text: Text, pattern: Text, from: nat): (at: int)
    ensures -1 <= at <= from
    ensures at >= 0 ==> At(text, at, pattern)
    ensures forall k: nat :: at < k <= from ==> !At(text, k, pattern)
  {
    if At(text, from, pattern) then from
    else if from == 0 then -1
    else LastIndexOf(text, pattern, from - 1)
  }

  predicate EndsWith(text: Text, end: Text) {
    |end| <= |text| && At(text, |text| - |end|, end)
  }

  predicate IsFile(v: Value) {
    && v.Obj?
    && var kind, name, path := Lookup(v.members, KIND), Lookup(v.members, NAME), Lookup(v.members, PATH);
       && (kind == Some(Str(FILE)) || kind == Some(Str(FOLDER)))
       && name.Some? && name.value.Str?
       && path.Some? && path.value.Str? && |path.value.units| > 0
  }

  datatype Attached = Attached(text: Text, files: seq<Value>)

  predicate AreFiles(values: seq<Value>) {
    forall k :: 0 <= k < |values| ==> IsFile(values[k])
  }

  /** The list a text holds, if every entry of it is a file. */
  function FileList(json: Text): Option<seq<Value>> {
    match Parse(json)
    case None => None
    case Some(v) => if v.Arr? && |v.items| <= MAX_ATTACHMENTS && AreFiles(v.items) then Some(v.items) else None
  }

  /** `text.slice(from, to)` for places counted from the start. */
  function Slice(text: Text, from: nat, to: int): Text
    requires to <= |text|
  {
    if from <= to then text[from..to] else []
  }

  function AttachedFiles(text: Text): Attached {
    var start := LastIndexOf(text, LOCAL_FILES, |text|);
    if start < 0 || !EndsWith(text, FILES_END) then Attached(text, [])
    else
      match FileList(Slice(text, start + |LOCAL_FILES|, |text| - |FILES_END|))
      case None => Attached(text, [])
      case Some(files) => Attached(text[..start], files)
  }

  // The marker cannot start inside what follows it.

  predicate NoBreak(t: Text) {
    forall k :: 0 <= k < |t| ==> t[k] != NEWLINE
  }

  lemma OpenLineHasNoBreak()
    ensures NoBreak(OPEN_LINE) && |OPEN_LINE| > 0
  {
    assert OPEN_LINE[0] == LBRACKET;
  }

  lemma CloseLineHasNoBreak()
    ensures NoBreak(CLOSE_LINE) && |CLOSE_LINE| > 0
  {
    assert CLOSE_LINE[0] == LBRACKET;
  }

  lemma AdviceHasNoBreak()
    ensures NoBreak(ADVICE) && |ADVICE| > 0
  {
    assert NoBreak(Units("Read these local paths as needed "));
    assert NoBreak(Units("with your tools. "));
    assert NoBreak(Units("Ask for access when required."));
    assert ADVICE[0] == 82;
  }

  /** No two line breaks stand side by side, nor one at the end. */
  predicate NoDoubleBreak(t: Text) {
    forall k :: 0 <= k < |t| && t[k] == NEWLINE ==> k + 1 < |t| && t[k + 1] != NEWLINE
  }

  lemma TailHasNoDoubleBreak(json: Text)
    requires Plain(json) && json != []
    ensures NoDoubleBreak(OPEN_LINE + ([NEWLINE] + (json + FILES_END)))
  {
    OpenLineHasNoBreak();
    CloseLineHasNoBreak();
    AdviceHasNoBreak();
  }

  lemma MarkerHasDoubleBreak(text: Text, k: nat)
    requires At(text, k, LOCAL_FILES)
    ensures k + 1 < |text| && text[k] == NEWLINE && text[k + 1] == NEWLINE
  {
    var here := text[k..k + |LOCAL_FILES|];
    assert here[0] == text[k] && here[1] == text[k + 1];
  }

  lemma NoDoubleBreakLater(content: Text, tail: Text, k: nat)
    requires tail != [] && tail[0] != NEWLINE && NoDoubleBreak(tail) && |content| < k
    ensures var text := content + ([NEWLINE] + ([NEWLINE] + tail));
      k + 1 < |text| && text[k] == NEWLINE ==> text[k + 1] != NEWLINE
  {
    var text := content + ([NEWLINE] + ([NEWLINE] + tail));
    var at := k - |content| - 2;
    if 0 <= at < |tail| {
      assert text[k] == tail[at];
      assert at + 1 < |tail| ==> text[k + 1] == tail[at + 1];
    }
  }

  lemma NoMarkerLater(content: Text, json: Text, k: nat)
    requires Plain(json) && json != [] && |content| < k
    ensures !At(content + (LOCAL_FILES + (json + FILES_END)), k, LOCAL_FILES)
  {
    hide At, NoDoubleBreak;
    var text := content + (LOCAL_FILES + (json + FILES_END));
    var tail := OPEN_LINE + ([NEWLINE] + (json + FILES_END));
    TailHasNoDoubleBreak(json);
    OpenLineHasNoBreak();
    assert tail[0] == OPEN_LINE[0];
    assert LOCAL_FILES + (json + FILES_END) == [NEWLINE] + ([NEWLINE] + tail);
    NoDoubleBreakLater(content, tail, k);
    if At(text, k, LOCAL_FILES) {
      MarkerHasDoubleBreak(text, k);
      assert false;
    }
  }

  /** The marker's own start is the last place it stands in a text with files attached. */
  lemma MarkerIsLast(content: Text, json: Text)
    requires Plain(json) && json != []
    ensures var text := content + (LOCAL_FILES + (json + FILES_END));
      LastIndexOf(text, LOCAL_FILES, |text|) == |content|
  {
    var text := content + (LOCAL_FILES + (json + FILES_END));
    MarkerStands(content, json);
    var at := LastIndexOf(text, LOCAL_FILES, |text|);
    if at > |content| {
      NoMarkerLater(content, json, at);
    }
  }

  lemma MarkerStands(content: Text, json: Text)
    ensures At(content + (LOCAL_FILES + (json + FILES_END)), |content|, LOCAL_FILES)
  {
    var text := content + (LOCAL_FILES + (json + FILES_END));
    assert text[|content|..][..|LOCAL_FILES|] == LOCAL_FILES;
    assert text[|content|..|content| + |LOCAL_FILES|] == text[|content|..][..|LOCAL_FILES|];
  }

  lemma AttachedParts(content: Text, json: Text)
    ensures var text := content + (LOCAL_FILES + (json + FILES_END));
      && EndsWith(text, FILES_END)
      && text[..|content|] == content
      && |content| + |LOCAL_FILES| <= |text| - |FILES_END|
      && text[|content| + |LOCAL_FILES|..|text| - |FILES_END|] == json
  {
    hide LOCAL_FILES, FILES_END;
    var text := content + (LOCAL_FILES + (json + FILES_END));
    assert text[|text| - |FILES_END|..] == FILES_END;
  }

  lemma NamesDiffer()
    ensures KIND != NAME && KIND != PATH && NAME != PATH && FILE != FOLDER
  {
    assert KIND[0] == 107 && NAME[0] == 110 && PATH[0] == 112;
  }

  lemma LookupThree(a: Member, b: Member, c: Member)
    requires a.name != b.name && a.name != c.name && b.name != c.name
    ensures Lookup([a, b, c], a.name) == Some(a.value)
    ensures Lookup([a, b, c], b.name) == Some(b.value)
    ensures Lookup([a, b, c], c.name) == Some(c.value)
  {
    assert [a, b, c][..2] == [a, b] && [a, b][..1] == [a];
    assert Lookup([a], a.name) == Some(a.value);
    assert Lookup([a, b], a.name) == Some(a.value);
  }

  /** The value is the file: its kind, name and path. */
  predicate Describes(v: Value, file: Attachment)
    requires file.Local?
  {
    v.Obj? && Lookup(v.members, Units("kind")) == Some(Str(Units(if file.folder then "folder" else "file"))) &&
    Lookup(v.members, Units("name")) == Some(Str(file.name)) && Lookup(v.members, Units("path")) == Some(Str(file.path))
  }

  lemma FileIsDescribed(file: Attachment)
    requires file.Local?
    ensures Describes(FileValue(file), file)
  {
    var members := FileValue(file).members;
    NamesDiffer();
    LookupThree(members[0], members[1], members[2]);
  }

  lemma FileValueIsFile(file: Attachment)
    requires file.Local?
    ensures Printable(FileValue(file)) && (IsFile(FileValue(file)) <==> file.path != [])
  {
    var members := FileValue(file).members;
    NamesDiffer();
    LookupThree(members[0], members[1], members[2]);
  }

  lemma ListComesBack(content: Text, values: seq<Value>)
    requires Printable(Arr(values)) && |values| <= MAX_ATTACHMENTS
    ensures var text := content + (LOCAL_FILES + (Print(Arr(values)) + FILES_END));
      AttachedFiles(text) == if AreFiles(values) then Attached(content, values) else Attached(text, [])
  {
    hide Parse, Print, LastIndexOf, AreFiles, EndsWith, Printable;
    var json := Print(Arr(values));
    FirstUnit(Arr(values));
    PrintPlain(Arr(values));
    PrintParse(Arr(values));
    MarkerIsLast(content, json);
    AttachedParts(content, json);
  }

  predicate HavePaths(files: seq<Attachment>)
    requires forall k :: 0 <= k < |files| ==> files[k].Local?
  {
    forall k :: 0 <= k < |files| ==> files[k].path != []
  }

  /** Files sent along come back with the text as it was typed, whatever it holds, exactly when
      each of them has a path; otherwise nothing is taken out of the message. */
  lemma FilesComeBack(content: Text, attachments: seq<Attachment>)
    requires Request(content, attachments).Ok? && Locals(attachments) != []
    ensures var files, sent := Locals(attachments), Request(content, attachments).value.content;
      AttachedFiles(sent) == if HavePaths(files) then Attached(content, FileValues(files)) else Attached(sent, [])
    ensures forall k :: 0 <= k < |Locals(attachments)| ==> Describes(FileValues(Locals(attachments))[k], Locals(attachments)[k])
  {
    forall k | 0 <= k < |Locals(attachments)| ensures Describes(FileValues(Locals(attachments))[k], Locals(attachments)[k]) {
      FileIsDescribed(Locals(attachments)[k]);
    }
    hide AttachedFiles, Print, IsFile, FileValue, Describes;
    var files := Locals(attachments);
    var values := FileValues(files);
    forall k | 0 <= k < |files| ensures Printable(values[k]) && (IsFile(values[k]) <==> files[k].path != []) {
      FileValueIsFile(files[k]);
    }
    ListComesBack(content, values);
  }

  /** The text ends in a block of files: behind the last marker stand a list of files and the end. */
  ghost predicate EndsInBlock(content: Text) {
    exists text, json :: IsBlock(content, text, json)
  }

  ghost predicate IsBlock(content: Text, text: Text, json: Text) {
    && content == text + (LOCAL_FILES + (json + FILES_END))
    && (forall k: nat :: |text| < k <= |content| ==> !At(content, k, LOCAL_FILES))
    && ListsFiles(json)
  }

  /** The text is a list of at most sixteen files with paths. */
  ghost predicate ListsFiles(json: Text) {
    Parse(json).Some? && Parse(json).value.Arr? && |Parse(json).value.items| <= 16 &&
    forall k :: 0 <= k < |Parse(json).value.items| ==> IsSomeFile(Parse(json).value.items[k])
  }

  ghost predicate IsSomeFile(v: Value) {
    exists file: Attachment :: file.Local? && file.path != [] && Describes(v, file)
  }

  lemma FilesAreDescribed(v: Value)
    ensures IsFile(v) <==> IsSomeFile(v)
  {
    hide Lookup;
    NamesDiffer();
    if IsFile(v) {
      var folder := Lookup(v.members, KIND) == Some(Str(FOLDER));
      var file := Local(folder, [], Lookup(v.members, NAME).value.units, Lookup(v.members, PATH).value.units);
      assert Describes(v, file);
    }
    if IsSomeFile(v) {
      var file: Attachment :| file.Local? && file.path != [] && Describes(v, file);
      assert Units("file") == FILE && Units("folder") == FOLDER;
    }
  }

  lemma ListsAre(json: Text)
    ensures FileList(json).Some? <==> ListsFiles(json)
  {
    hide Parse, IsFile, IsSomeFile;
    if Parse(json).Some? && Parse(json).value.Arr? {
      var items := Parse(json).value.items;
      forall k | 0 <= k < |items| ensures IsFile(items[k]) <==> IsSomeFile(items[k]) {
        FilesAreDescribed(items[k]);
      }
    }
  }

  /** The marker's last place is the one after which there is no other. */
  lemma LastIs(text: Text, pattern: Text, at: nat)
    requires at <= |text| && At(text, at, pattern) && forall k: nat :: at < k <= |text| ==> !At(text, k, pattern)
    ensures LastIndexOf(text, pattern, |text|) == at
  {}

  lemma TakenApart(content: Text, start: nat)
    requires At(content, start, LOCAL_FILES) && EndsWith(content, FILES_END)
    requires start + |LOCAL_FILES| <= |content| - |FILES_END|
    ensures content == content[..start] + (LOCAL_FILES + (content[start + |LOCAL_FILES|..|content| - |FILES_END|] + FILES_END))
  {
    hide LOCAL_FILES, FILES_END;
    var middle, end := start + |LOCAL_FILES|, |content| - |FILES_END|;
    assert content[end..] == content[end..end + |FILES_END|];
    assert content == content[..start] + (content[start..middle] + (content[middle..end] + content[end..]));
  }

  lemma NothingParses()
    ensures FileList([]).None?
  {}

  /** A message sent without files is shown as it was typed exactly when it does not itself end in such a
      block. */
  lemma PlainMessageStays(content: Text, attachments: seq<Attachment>)
    requires Request(content, attachments).Ok? && Locals(attachments) == []
    ensures var sent := Request(content, attachments).value.content;
      sent == content && (AttachedFiles(sent) == Attached(sent, []) <==> !EndsInBlock(content))
  {
    hide AttachedFiles, EndsInBlock, Print, Utf8Length;
    TakenOut(content);
  }

  /** What is shown of a text when no files were sent with it. */
  lemma TakenOut(content: Text)
    ensures AttachedFiles(content) == Attached(content, []) <==> !EndsInBlock(content)
  {
    hide FileList, ListsFiles, LastIndexOf, EndsWith, LOCAL_FILES, FILES_END;
    var start := LastIndexOf(content, LOCAL_FILES, |content|);
    if start >= 0 && EndsWith(content, FILES_END) {
      var middle, end := start + |LOCAL_FILES|, |content| - |FILES_END|;
      if middle <= end {
        TakenApart(content, start);
        ListsAre(content[middle..end]);
        if FileList(content[middle..end]).Some? {
          assert IsBlock(content, content[..start], content[middle..end]);
        }
      } else {
        NothingParses();
      }
    }
    forall text, json | IsBlock(content, text, json) ensures AttachedFiles(content) != Attached(content, []) {
      BlockIsTaken(content, text, json);
    }
  }

  lemma BlockIsTaken(content: Text, text: Text, json: Text)
    requires IsBlock(content, text, json)
    ensures AttachedFiles(content) != Attached(content, [])
  {
    hide FileList, ListsFiles, LastIndexOf, EndsWith, LOCAL_FILES, FILES_END;
    AttachedParts(text, json);
    MarkerStands(text, json);
    LastIs(content, LOCAL_FILES, |text|);
    ListsAre(json);
    MarkerHasLength();
  }

  lemma MarkerHasLength()
    ensures |LOCAL_FILES| > 0
  {}

  /** So what was once sent with files, pasted and sent again without any, shows those files. */
  lemma PastedFilesAreShown(content: Text, attachments: seq<Attachment>, again: seq<Attachment>)
    requires Request(content, attachments).Ok? && Locals(attachments) != [] && HavePaths(Locals(attachments))
    requires Request(Request(content, attachments).value.content, again).Ok? && Locals(again) == []
    ensures AttachedFiles(Request(Request(content, attachments).value.content, again).value.content)
      == Attached(content, FileValues(Locals(attachments)))
  {
    hide AttachedFiles, Print, Utf8Length;
    FilesComeBack(content, attachments);
  }
}
