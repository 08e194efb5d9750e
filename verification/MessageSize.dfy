/** Which messages are accepted: their number of attachments, and their size as the frame they are sent in
    (messageRequest.ts). */
module MessageSize {
  import opened Basics
  import opened CodeUnits
  import opened Json
  import opened JsonPrinter
  import opened MessageRequest

  // Utf8Length is the length of an encoding that reads back.

  /** The units the first code point of a text takes. */
  function PointLength(t: Text): (n: nat)
    requires t != []
    ensures 1 <= n <= |t|
  {
    if |t| > 1 && IsHigh(t[0]) && IsLow(t[1]) then 2 else 1
  }

  /** The first code point; a surrogate that stands alone is replaced. */
  function Point(t: Text): (c: int)
    requires t != []
    ensures 0 <= c < 0x11_0000
  {
    if PointLength(t) == 2 then 0x1_0000 + (t[0] as int - 0xd800) * 0x400 + (t[1] as int - 0xdc00)
    else if IsHigh(t[0]) || IsLow(t[0]) then 0xfffd
    else t[0] as int
  }

  function Points(t: Text): seq<int> {
    if t == [] then [] else [Point(t)] + Points(t[PointLength(t)..])
  }

  /** UTF-8, section 3 of RFC 3629. */
  function Bytes(c: int): seq<int>
    requires 0 <= c < 0x11_0000
  {
    if c < 0x80 then [c]
    else if c < 0x800 then [0xc0 + c / 0x40, 0x80 + c % 0x40]
    else if c < 0x1_0000 then [0xe0 + c / 0x1000, 0x80 + c / 0x40 % 0x40, 0x80 + c % 0x40]
    else [0xf0 + c / 0x4_0000, 0x80 + c / 0x1000 % 0x40, 0x80 + c / 0x40 % 0x40, 0x80 + c % 0x40]
  }

  function Encoded(t: Text): seq<int> {
    if t == [] then [] else Bytes(Point(t)) + Encoded(t[PointLength(t)..])
  }

  /** How many bytes a first byte announces. */
  function Announced(byte: int): nat {
    if byte < 0x80 then 1 else if byte < 0xe0 then 2 else if byte < 0xf0 then 3 else 4
  }

  /** The code points of well-formed bytes. */
  function Decoded(b: seq<int>): seq<int> {
    if b == [] || Announced(b[0]) > |b| then []
    else
      var c := match Announced(b[0])
        case 1 => b[0]
        case 2 => (b[0] - 0xc0) * 0x40 + (b[1] - 0x80)
        case 3 => ((b[0] - 0xe0) * 0x40 + (b[1] - 0x80)) * 0x40 + (b[2] - 0x80)
        case _ => (((b[0] - 0xf0) * 0x40 + (b[1] - 0x80)) * 0x40 + (b[2] - 0x80)) * 0x40 + (b[3] - 0x80);
      [c] + Decoded(b[Announced(b[0])..])
  }

  lemma DecodesPoint(c: int, rest: seq<int>)
    requires 0 <= c < 0x11_0000
    ensures Decoded(Bytes(c) + rest) == [c] + Decoded(rest)
  {
    hide Decoded;
    var b := Bytes(c) + rest;
    assert b[|Bytes(c)|..] == rest && b != [] && Announced(b[0]) == |Bytes(c)|;
    assert Decoded(b) == [c] + Decoded(rest) by {
      DecodedStep(b, c, rest);
    }
  }

  lemma DecodedStep(b: seq<int>, c: int, rest: seq<int>)
    requires 0 <= c < 0x11_0000 && b == Bytes(c) + rest && b[|Bytes(c)|..] == rest && Announced(b[0]) == |Bytes(c)|
    ensures Decoded(b) == [c] + Decoded(rest)
  {
    if c >= 0x1_0000 {
      assert c / 0x4_0000 == c / 0x1000 / 0x40;
      assert c / 0x1000 == c / 0x40 / 0x40;
    } else if c >= 0x800 {
      assert c / 0x1000 == c / 0x40 / 0x40;
    }
  }

  /** The size of a text is that of an encoding which gives back all its code points. */
  lemma {:induction false} SizeIsEncoded(t: Text)
    ensures Utf8Length(t) == |Encoded(t)| && Decoded(Encoded(t)) == Points(t)
  {
    if t != [] {
      SizeIsEncoded(t[PointLength(t)..]);
      DecodesPoint(Point(t), Encoded(t[PointLength(t)..]));
    }
  }

  lemma {:induction false} SizeBounds(t: Text)
    ensures |t| <= Utf8Length(t) <= 3 * |t|
  {
    if t != [] {
      SizeBounds(t[PointLength(t)..]);
    }
  }

  /** Sizes add up where no pair is split. */
  lemma {:induction false} SizeSum(a: Text, b: Text)
    ensures Utf8Length(a + b) <= Utf8Length(a) + Utf8Length(b)
    ensures !(a != [] && b != [] && IsHigh(a[|a| - 1]) && IsLow(b[0])) ==> Utf8Length(a + b) == Utf8Length(a) + Utf8Length(b)
  {
    if a == [] {
      assert a + b == b;
    } else if |a| == 1 && b != [] && IsHigh(a[0]) && IsLow(b[0]) {
      assert (a + b)[2..] == b[1..];
    } else {
      var n := PointLength(a);
      assert (a + b)[n..] == a[n..] + b && PointLength(a + b) == n;
      SizeSum(a[n..], b);
    }
  }

  // How large a printed value can get.

  lemma UnitSize(u: CodeUnit)
    ensures Utf8Length(PrintUnit(u)) <= 6 && |PrintUnit(u)| <= 6
  {
    var p := PrintUnit(u);
    if |p| == 6 {
      assert p[1..][1..][1..][1..][1..] == [p[5]];
      assert forall k :: 0 <= k < 6 ==> p[k] < 0x80;
      AsciiSize(p);
    } else {
      SizeBounds(p);
    }
  }

  lemma {:induction false} AsciiSize(t: Text)
    requires forall k :: 0 <= k < |t| ==> t[k] < 0x80
    ensures Utf8Length(t) == |t|
  {
    if t != [] {
      AsciiSize(t[1..]);
    }
  }

  lemma {:induction false} CharsSize(units: Text)
    ensures Utf8Length(PrintChars(units)) <= 6 * |units| + 1
  {
    hide PrintUnit;
    if units == [] {
      AsciiSize([QUOTE]);
    } else if |units| > 1 && IsHigh(units[0]) && IsLow(units[1]) {
      CharsSize(units[2..]);
      var pair: Text := [units[0], units[1]];
      assert [units[0]] + ([units[1]] + PrintChars(units[2..])) == pair + PrintChars(units[2..]);
      SizeBounds(pair);
      SizeSum(pair, PrintChars(units[2..]));
    } else {
      CharsSize(units[1..]);
      UnitSize(units[0]);
      SizeSum(PrintUnit(units[0]), PrintChars(units[1..]));
    }
  }

  /** Room enough for a printed value: six bytes for a unit of a string. */
  function Room(v: Value): nat
    decreases v, 0
  {
    match v
    case Num(lexeme) => 3 * |lexeme|
    case Str(units) => 6 * |units| + 2
    case Arr(items) => 2 + RoomOfItems(items)
    case Obj(members) => 2 + RoomOfMembers(members)
    case _ => 5
  }

  function RoomOfItems(items: seq<Value>): nat
    decreases items, 1
  {
    if items == [] then 0 else Room(items[0]) + 1 + RoomOfItems(items[1..])
  }

  function RoomOfMembers(members: seq<Member>): nat
    decreases members, 1
  {
    if members == [] then 0 else 6 * |members[0].name| + 4 + Room(members[0].value) + RoomOfMembers(members[1..])
  }

  lemma StringSize(units: Text)
    ensures Utf8Length(PrintString(units)) <= 6 * |units| + 2
  {
    CharsSize(units);
    AsciiSize([QUOTE]);
    SizeSum([QUOTE], PrintChars(units));
  }

  lemma {:induction false} PrintedSize(v: Value)
    ensures Utf8Length(Print(v)) <= Room(v)
    decreases v, 0
  {
    hide PrintString, Utf8Length, PrintItems, PrintMembers, RoomOfItems, RoomOfMembers;
    match v
    case Str(units) => StringSize(units);
    case Num(lexeme) => SizeBounds(lexeme);
    case Arr(items) =>
      One(LBRACKET);
      One(RBRACKET);
      if items != [] {
        ItemsSize(items);
        SizeSum([LBRACKET], PrintItems(items));
      } else {
        SizeSum([LBRACKET], [RBRACKET]);
      }
    case Obj(members) =>
      One(LBRACE);
      One(RBRACE);
      if members != [] {
        MembersSize(members);
        SizeSum([LBRACE], PrintMembers(members));
      } else {
        SizeSum([LBRACE], [RBRACE]);
      }
    case _ => WordSize(Print(v));
  }

  lemma One(u: CodeUnit)
    requires u < 0x80
    ensures Utf8Length([u]) == 1
  {
    AsciiSize([u]);
  }

  lemma WordSize(w: Text)
    requires w == NULL || w == TRUE || w == FALSE
    ensures Utf8Length(w) <= 5
  {
    AsciiSize(w);
  }

  /** With the closing bracket. */
  lemma {:induction false} ItemsSize(items: seq<Value>)
    requires items != []
    ensures Utf8Length(PrintItems(items)) <= RoomOfItems(items)
    decreases items, 1
  {
    hide Print, Room, Utf8Length;
    PrintedSize(items[0]);
    One(RBRACKET);
    One(COMMA);
    if |items| == 1 {
      SizeSum(Print(items[0]), [RBRACKET]);
    } else {
      ItemsSize(items[1..]);
      SizeSum([COMMA], PrintItems(items[1..]));
      SizeSum(Print(items[0]), [COMMA] + PrintItems(items[1..]));
    }
  }

  lemma {:induction false} MembersSize(members: seq<Member>)
    requires members != []
    ensures Utf8Length(PrintMembers(members)) <= RoomOfMembers(members)
    decreases members, 1
  {
    hide Print, Room, Utf8Length, PrintString;
    var m := members[0];
    StringSize(m.name);
    PrintedSize(m.value);
    One(RBRACE);
    One(COMMA);
    One(COLON);
    var rest := if |members| == 1 then [RBRACE] else [COMMA] + PrintMembers(members[1..]);
    if |members| > 1 {
      MembersSize(members[1..]);
      SizeSum([COMMA], PrintMembers(members[1..]));
    }
    SizeSum(Print(m.value), rest);
    SizeSum([COLON], Print(m.value) + rest);
    SizeSum(PrintString(m.name), [COLON] + (Print(m.value) + rest));
  }

  // Which attachments go where.

  lemma {:induction false} ImagesMore(a: seq<Attachment>, b: seq<Attachment>)
    ensures Images(a + b) == Images(a) + Images(b) && Locals(a + b) == Locals(a) + Locals(b)
  {
    if a == [] {
      assert a + b == b;
    } else {
      assert (a + b)[1..] == a[1..] + b;
      ImagesMore(a[1..], b);
    }
  }

  /** Every attachment is one of the images or one of the files, each at the place it has among its own kind. */
  lemma EachInItsPlace(attachments: seq<Attachment>, k: nat)
    requires k < |attachments|
    ensures var images, files := |Images(attachments[..k])|, |Locals(attachments[..k])|;
      if attachments[k].Image? then images < |Images(attachments)| && Images(attachments)[images] == attachments[k]
      else files < |Locals(attachments)| && Locals(attachments)[files] == attachments[k]
    ensures |Images(attachments)| + |Locals(attachments)| == |attachments|
  {
    var a, b := attachments[..k], attachments[k..];
    assert a + b == attachments;
    ImagesMore(a, b);
    KindsCount(attachments);
  }

  lemma {:induction false} KindsCount(attachments: seq<Attachment>)
    ensures |Images(attachments)| + |Locals(attachments)| == |attachments|
  {
    if attachments != [] {
      KindsCount(attachments[1..]);
    }
  }

  // Which messages are accepted.

  /** The call a message is sent as. */
  predicate IsFrame(frame: seq<Member>, content: Text, images: seq<Attachment>)
    requires forall k :: 0 <= k < |images| ==> images[k].Image?
  {
    && |frame| == 3
    && frame[0] == Member(Units("id"), Num([ZERO])) && frame[1] == Member(Units("method"), Str(Units("message.send")))
    && frame[2].name == Units("params") && frame[2].value.Obj? && |frame[2].value.members| == 2
    && frame[2].value.members[0] == Member(Units("content"), Str(content))
    && frame[2].value.members[1].name == Units("images") && frame[2].value.members[1].value.Arr?
    && ArePictures(frame[2].value.members[1].value.items, images)
  }

  predicate ArePictures(values: seq<Value>, images: seq<Attachment>)
    requires forall k :: 0 <= k < |images| ==> images[k].Image?
  {
    |values| == |images| && forall k :: 0 <= k < |images| ==> values[k] == Obj([
      Member(Units("id"), Str(images[k].id)), Member(Units("name"), Str(images[k].name)),
      Member(Units("mime"), Str(images[k].mime)), Member(Units("data"), Str(images[k].data))])
  }

  /** What is sent of a message, whatever becomes of it. */
  function Sent(content: Text, attachments: seq<Attachment>): Params {
    Params(ContentWith(content, Locals(attachments)), Images(attachments))
  }

  lemma FrameIs(params: Params)
    requires forall k :: 0 <= k < |params.images| ==> params.images[k].Image?
    ensures FrameValue(params).Obj? && IsFrame(FrameValue(params).members, params.content, params.images)
  {}

  /** A message is accepted exactly when it has at most four images and sixteen attachments and the call it is
      sent as takes, with 128 bytes for routing, at most 16 MiB in UTF-8; what is
      sent then is its text with the files written into it, and its images. */
  lemma AcceptedExactly(content: Text, attachments: seq<Attachment>, frame: seq<Member>)
    requires IsFrame(frame, Sent(content, attachments).content, Images(attachments))
    ensures Request(content, attachments).Ok? <==>
      |Images(attachments)| <= 4 && |attachments| <= 16 && |Encoded(Print(Obj(frame)))| + 128 <= 16 * 1024 * 1024
    ensures Request(content, attachments) == Err(TooManyAttachments) <==> |Images(attachments)| > 4 || |attachments| > 16
    ensures Request(content, attachments).Ok? ==> Request(content, attachments).value == Sent(content, attachments)
  {
    SizeIsEncoded(Print(Obj(frame)));
    FrameIs(Sent(content, attachments));
    OneFrame(frame, FrameValue(Sent(content, attachments)).members, Sent(content, attachments).content, Images(attachments));
    hide Print, Utf8Length, Encoded, IsFrame, FrameValue, ContentWith;
  }

  lemma OneFrame(a: seq<Member>, b: seq<Member>, content: Text, images: seq<Attachment>)
    requires forall k :: 0 <= k < |images| ==> images[k].Image?
    requires IsFrame(a, content, images) && IsFrame(b, content, images)
    ensures a == b
  {
    assert a[2].value.members[1].value.items == b[2].value.members[1].value.items;
    assert a[2].value.members == b[2].value.members;
  }

  /** Room enough for an attachment: a path is written into the text, and so printed twice. */
  function Weight(a: Attachment): nat {
    match a
    case Image(id, name, mime, data) => 6 * (|id| + |name| + |mime| + |data|) + 120
    case Local(_, _, name, path) => 36 * (|name| + |path|) + 900
  }

  function Weights(attachments: seq<Attachment>): nat {
    if attachments == [] then 0 else Weight(attachments[0]) + Weights(attachments[1..])
  }

  lemma {:induction false} WeightsSplit(attachments: seq<Attachment>)
    ensures Weights(attachments) == Weights(Images(attachments)) + Weights(Locals(attachments))
  {
    hide Weight;
    if attachments != [] {
      WeightsSplit(attachments[1..]);
      var first := attachments[0];
      assert ([first] + Images(attachments[1..]))[1..] == Images(attachments[1..]);
      assert ([first] + Locals(attachments[1..]))[1..] == Locals(attachments[1..]);
      assert [] + Images(attachments[1..]) == Images(attachments[1..]) && [] + Locals(attachments[1..]) == Locals(attachments[1..]);
    }
  }

  function MemberRoom(m: Member): nat {
    6 * |m.name| + 4 + Room(m.value)
  }

  lemma RoomOfFew(members: seq<Member>)
    ensures |members| == 2 ==> RoomOfMembers(members) == MemberRoom(members[0]) + MemberRoom(members[1])
    ensures |members| == 3 ==>
      RoomOfMembers(members) == MemberRoom(members[0]) + MemberRoom(members[1]) + MemberRoom(members[2])
    ensures |members| == 4 ==>
      RoomOfMembers(members) == MemberRoom(members[0]) + MemberRoom(members[1]) + MemberRoom(members[2]) + MemberRoom(members[3])
  {
    hide Room;
    if 2 <= |members| <= 4 {
      var one, two := members[1..], members[2..];
      assert one[1..] == two;
      if |two| > 0 {
        assert two[1..] == members[3..];
        assert |two| > 1 ==> members[3..][1..] == [];
      }
    }
  }

  lemma FileRoom(file: Attachment)
    requires file.Local?
    ensures 6 * (Room(FileValue(file)) + 1) <= Weight(file)
  {
    RoomOfFew(FileValue(file).members);
  }

  lemma ImageRoom(value: Value, image: Attachment)
    requires image.Image? && ArePictures([value], [image])
    ensures Room(value) + 1 <= Weight(image)
  {
    assert [value][0] == value && [image][0] == image;
    RoomOfFew(value.members);
  }

  lemma {:induction false} FilesRoom(files: seq<Attachment>, values: seq<Value>)
    requires |values| == |files| && forall k :: 0 <= k < |files| ==> files[k].Local? && values[k] == FileValue(files[k])
    ensures 6 * RoomOfItems(values) <= Weights(files)
  {
    hide Room, Weight, FileValue;
    if files != [] {
      FileRoom(files[0]);
      FilesRoom(files[1..], values[1..]);
    }
  }

  lemma {:induction false} ImagesRoom(images: seq<Attachment>, values: seq<Value>)
    requires (forall k :: 0 <= k < |images| ==> images[k].Image?) && ArePictures(values, images)
    ensures RoomOfItems(values) <= Weights(images)
  {
    hide Room, Weight;
    if images != [] {
      assert [values[0]][0] == values[0];
      ImageRoom(values[0], images[0]);
      ImagesRoom(images[1..], values[1..]);
    }
  }

  /** The text with its files written into it. */
  lemma ContentSize(content: Text, files: seq<Attachment>)
    requires forall k :: 0 <= k < |files| ==> files[k].Local?
    ensures 6 * |ContentWith(content, files)| <= 6 * |content| + Weights(files) + 1200
  {
    hide Print, RoomOfItems, Weights, FileValue, LOCAL_FILES, FILES_END;
    if files != [] {
      var values := FileValues(files);
      FilesRoom(files, values);
      PrintedSize(Arr(values));
      SizeBounds(Print(Arr(values)));
      MarkersAreShort();
    }
  }

  lemma MarkersAreShort()
    ensures |LOCAL_FILES| + |FILES_END| <= 198
  {}

  lemma FrameRoom(frame: seq<Member>, content: Text, images: seq<Attachment>)
    requires (forall k :: 0 <= k < |images| ==> images[k].Image?) && IsFrame(frame, content, images)
    ensures Room(Obj(frame)) <= 6 * |content| + Weights(images) + 400
  {
    hide Weights, ArePictures, RoomOfMembers, RoomOfItems;
    var params := frame[2].value.members;
    ImagesRoom(images, params[1].value.items);
    RoomOfFew(params);
    RoomOfFew(frame);
  }

  /** A bound a caller can check: what stays under it is accepted. */
  lemma SmallEnoughIsSent(content: Text, attachments: seq<Attachment>)
    requires |Images(attachments)| <= 4 && |attachments| <= 16
    requires 6 * |content| + Weights(attachments) + 1800 <= 16 * 1024 * 1024
    ensures Request(content, attachments).Ok?
  {
    hide Print, Weights, Utf8Length, Room;
    var sent := Sent(content, attachments);
    var frame := FrameValue(sent);
    FrameIs(sent);
    WeightsSplit(attachments);
    ContentSize(content, Locals(attachments));
    FrameRoom(frame.members, sent.content, sent.images);
    PrintedSize(frame);
  }

  /** So an ordinary message is: any text of two million units. */
  lemma TextIsSent(content: Text)
    requires |content| <= 2_000_000
    ensures Request(content, []) == Ok(Params(content, []))
  {
    SmallEnoughIsSent(content, []);
  }
}
