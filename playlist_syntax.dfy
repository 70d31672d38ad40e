/** Reading the `#EXT-X-PART` and `#EXT-X-PRELOAD-HINT` lines back: parsers that
    recover every field, which shows the rendered lines are unambiguous and carry
    exactly the values they were rendered from. */
module PlaylistSyntax {
  import opened Wrappers
  import opened Parts
  import opened Decimal
  import opened Playlist

  /** An attribute list with a first attribute and more after it. */
  lemma AttributeListCons(a: Attribute, rest: seq<Attribute>)
    requires |rest| > 0
    ensures AttributeList([a] + rest) == a.name + ("=" + (a.value + ("," + AttributeList(rest))))
  {
    assert ([a] + rest)[1..] == rest;
  }

  /** `NAME=`: the attribute name and the equals sign. */
  function Field(s: string, name: string): Option<string> {
    match Literal(s, name)
    case None => None
    case Some(r) => Literal(r, "=")
  }

  lemma FieldOf(name: string, rest: string)
    ensures Field(name + ("=" + rest), name) == Some(rest)
  {
    LiteralOf(name, "=" + rest);
    LiteralOf("=", rest);
  }

  /** `"./segment/N.m4s"`, read back to the segment number N. */
  function ParseUri(s: string): Option<(int, string)> {
    match Literal(s, "\"./segment/")
    case None => None
    case Some(r0) =>
      match Integer(r0)
      case None => None
      case Some((sequence, r1)) =>
        match Literal(r1, ".m4s\"")
        case None => None
        case Some(r2) => Some((sequence, r2))
  }

  lemma ParseUriOf(sequence: int, rest: string)
    ensures ParseUri(QuotedUri(sequence) + rest) == Some((sequence, rest))
  {
    var r1 := ".m4s\"" + rest;
    var r0 := IntToString(sequence) + r1;
    assert QuotedUri(sequence) + rest == "\"./segment/" + r0;
    LiteralOf("\"./segment/", r0);
    assert r1[0] == '.';
    IntegerOf(sequence, r1);
    LiteralOf(".m4s\"", rest);
  }

  /** `@offset"`: the part of a byte range after its length. */
  function ParseOffset(s: string): Option<(int, string)> {
    match Literal(s, "@")
    case None => None
    case Some(r0) =>
      match Integer(r0)
      case None => None
      case Some((offset, r1)) =>
        match Literal(r1, "\"")
        case None => None
        case Some(r2) => Some((offset, r2))
  }

  lemma ParseOffsetOf(offset: int, rest: string)
    ensures ParseOffset("@" + (IntToString(offset) + ("\"" + rest))) == Some((offset, rest))
  {
    var r1 := "\"" + rest;
    LiteralOf("@", IntToString(offset) + r1);
    assert r1[0] == '"';
    IntegerOf(offset, r1);
    LiteralOf("\"", rest);
  }

  /** `"len@offset"`, read back to the length and the offset. */
  function ParseByteRange(s: string): Option<(nat, int, string)> {
    match Literal(s, "\"")
    case None => None
    case Some(r0) =>
      match Natural(r0)
      case None => None
      case Some((length, r1)) =>
        match ParseOffset(r1)
        case None => None
        case Some((offset, r2)) => Some((length, offset, r2))
  }

  lemma ParseByteRangeOf(length: nat, offset: int, rest: string)
    ensures ParseByteRange(ByteRange(length, offset) + rest) == Some((length, offset, rest))
  {
    var r1 := "@" + (IntToString(offset) + ("\"" + rest));
    var r0 := NatToString(length) + r1;
    assert ByteRange(length, offset) + rest == "\"" + r0;
    LiteralOf("\"", r0);
    assert r1[0] == '@';
    NaturalOf(length, r1);
    ParseOffsetOf(offset, rest);
  }

  /** The fields a part line carries. */
  datatype PartFields = PartFields(durationMs: nat, sequence: int, length: nat, offset: int, independent: bool)

  const IndependentText := "," + ("INDEPENDENT" + ("=" + "YES"))

  /** Reads a part line back into its fields. */
  function ParsePartLine(line: string): Option<PartFields> {
    match Literal(line, "#EXT-X-PART:")
    case None => None
    case Some(r0) =>
      match Field(r0, "DURATION")
      case None => None
      case Some(r1) =>
        match Millis(r1)
        case None => None
        case Some((ms, r2)) =>
          match Literal(r2, ",")
          case None => None
          case Some(r3) =>
            match Field(r3, "URI")
            case None => None
            case Some(r4) =>
              match ParseUri(r4)
              case None => None
              case Some((sequence, r5)) =>
                match Literal(r5, ",")
                case None => None
                case Some(r6) =>
                  match Field(r6, "BYTERANGE")
                  case None => None
                  case Some(r7) =>
                    match ParseByteRange(r7)
                    case None => None
                    case Some((length, offset, r8)) =>
                      if r8 == "" then Some(PartFields(ms, sequence, length, offset, false))
                      else if r8 == IndependentText then Some(PartFields(ms, sequence, length, offset, true))
                      else None
  }

  /** Every part line reads back to exactly the values it was rendered from. */
  lemma ParsePartLineOf(sequence: int, offset: int, p: Part)
    ensures ParsePartLine(PartLine(sequence, offset, p))
      == Some(PartFields(p.durationMs, sequence, |p.data|, offset, p.hasKeyframe))
  {
    var flag := if p.hasKeyframe then IndependentText else "";
    var r7 := ByteRange(|p.data|, offset) + flag;
    var r6 := "BYTERANGE" + ("=" + r7);
    var r5 := "," + r6;
    var r4 := QuotedUri(sequence) + r5;
    var r3 := "URI" + ("=" + r4);
    var r2 := "," + r3;
    var r1 := FormatMillis(p.durationMs) + r2;
    var r0 := "DURATION" + ("=" + r1);
    var duration := Attribute("DURATION", FormatMillis(p.durationMs));
    var uri := Attribute("URI", QuotedUri(sequence));
    var range := Attribute("BYTERANGE", ByteRange(|p.data|, offset));
    var flags := if p.hasKeyframe then [Attribute("INDEPENDENT", "YES")] else [];
    assert [duration, uri, range] + flags == [duration] + ([uri] + ([range] + flags));
    AttributeListCons(duration, [uri] + ([range] + flags));
    AttributeListCons(uri, [range] + flags);
    if p.hasKeyframe {
      AttributeListCons(range, flags);
    } else {
      assert [range] + flags == [range];
      assert r7 == ByteRange(|p.data|, offset);
    }
    assert PartLine(sequence, offset, p) == "#EXT-X-PART:" + r0;
    LiteralOf("#EXT-X-PART:", r0);
    FieldOf("DURATION", r1);
    MillisOf(p.durationMs, r2);
    LiteralOf(",", r3);
    FieldOf("URI", r4);
    ParseUriOf(sequence, r5);
    LiteralOf(",", r6);
    FieldOf("BYTERANGE", r7);
    ParseByteRangeOf(|p.data|, offset, flag);
  }

  /** Reads a hint line back into the segment number and the start offset. */
  function ParseHintLine(line: string): Option<(int, int)> {
    match Literal(line, "#EXT-X-PRELOAD-HINT:")
    case None => None
    case Some(r0) =>
      match Field(r0, "TYPE")
      case None => None
      case Some(r1) =>
        match Literal(r1, "PART,")
        case None => None
        case Some(r2) =>
          match Field(r2, "URI")
          case None => None
          case Some(r3) =>
            match ParseUri(r3)
            case None => None
            case Some((sequence, r4)) =>
              match Literal(r4, ",")
              case None => None
              case Some(r5) =>
                match Field(r5, "BYTERANGE-START")
                case None => None
                case Some(r6) =>
                  match Integer(r6)
                  case None => None
                  case Some((start, r7)) => if r7 == "" then Some((sequence, start)) else None
  }

  /** Every hint line reads back to the part it announces. */
  lemma ParseHintLineOf(sequence: int, start: int)
    ensures ParseHintLine(HintLine(sequence, start)) == Some((sequence, start))
  {
    var r6 := IntToString(start);
    var r5 := "BYTERANGE-START" + ("=" + r6);
    var r4 := "," + r5;
    var r3 := QuotedUri(sequence) + r4;
    var r2 := "URI" + ("=" + r3);
    var r0 := "TYPE" + ("=" + ("PART" + ("," + r2)));
    var kind := Attribute("TYPE", "PART");
    var uri := Attribute("URI", QuotedUri(sequence));
    var from := Attribute("BYTERANGE-START", IntToString(start));
    assert [kind, uri, from] == [kind] + ([uri] + [from]);
    AttributeListCons(kind, [uri] + [from]);
    AttributeListCons(uri, [from]);
    assert HintLine(sequence, start) == "#EXT-X-PRELOAD-HINT:" + r0;
    LiteralOf("#EXT-X-PRELOAD-HINT:", r0);
    FieldOf("TYPE", "PART" + ("," + r2));
    assert "PART" + ("," + r2) == "PART," + r2;
    LiteralOf("PART,", r2);
    FieldOf("URI", r3);
    ParseUriOf(sequence, r4);
    LiteralOf(",", r5);
    FieldOf("BYTERANGE-START", r6);
    assert r6 + "" == r6;
    IntegerOf(start, "");
  }
}
