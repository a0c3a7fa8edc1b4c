/** A set of named fields as text: a line a field, with the value in hexadecimal. */
module Pdu {
  import opened Bytes
  import opened Frames
  import Text

  type Pdu = map<string, seq<byte>>

  datatype Field = Field(name: string, value: seq<byte>)

  // ---- Hexadecimal values ----

  function HexEncoded(value: seq<byte>): (s: string)
    ensures |s| == 2 * |value|
  {
    if value == [] then [] else [Text.HexDigit(value[0] / 16), Text.HexDigit(value[0] % 16)] + HexEncoded(value[1..])
  }

  function HexDecoded(s: string): (r: Option<seq<byte>>) {
    if s == [] then Some([])
    else if |s| % 2 != 0 || Text.HexVal(s[0]) < 0 || Text.HexVal(s[1]) < 0 then None
    else match HexDecoded(s[2..])
      case None => None
      case Some(rest) => Some([Text.HexVal(s[0]) * 16 + Text.HexVal(s[1])] + rest)
  }

  lemma {:induction false} HexRoundTrip(value: seq<byte>)
    ensures HexDecoded(HexEncoded(value)) == Some(value)
    decreases |value|
  {
    if value != [] {
      HexRoundTrip(value[1..]);
      Text.HexDigitValue(value[0] / 16);
      Text.HexDigitValue(value[0] % 16);
      var s := HexEncoded(value);
      assert s[2..] == HexEncoded(value[1..]);
      assert value == [value[0]] + value[1..];
    }
  }

  lemma {:induction false} HexIsPlain(value: seq<byte>)
    ensures forall c :: c in HexEncoded(value) ==> Text.HexVal(c) >= 0
    decreases |value|
  {
    if value != [] {
      HexIsPlain(value[1..]);
      Text.HexDigitValue(value[0] / 16);
      Text.HexDigitValue(value[0] % 16);
    }
  }

  lemma {:induction false} HexEncodedConcat(a: seq<byte>, b: byte)
    ensures HexEncoded(a + [b]) == HexEncoded(a) + [Text.HexDigit(b / 16), Text.HexDigit(b % 16)]
    decreases |a|
  {
    if a == [] {
      assert [] + [b] == [b] && [b][1..] == [];
    } else {
      HexEncodedConcat(a[1..], b);
      assert (a + [b])[1..] == a[1..] + [b];
    }
  }

  method HexEncode(value: seq<byte>) returns (out: string)
    ensures out == HexEncoded(value)
  {
    out := "";
    for i := 0 to |value|
      invariant out == HexEncoded(value[..i])
    {
      HexEncodedConcat(value[..i], value[i]);
      assert value[..i + 1] == value[..i] + [value[i]];
      out := out + [Text.HexDigit(value[i] / 16), Text.HexDigit(value[i] % 16)];
    }
    assert value[..|value|] == value;
  }

  /** Decoded is exactly what has an even number of characters, all of them hexadecimal digits. */
  lemma {:induction false} HexDecodes(s: string)
    ensures HexDecoded(s).Some? <==> |s| % 2 == 0 && forall i :: 0 <= i < |s| ==> Text.HexVal(s[i]) >= 0
    decreases |s|
  {
    if |s| >= 2 {
      var rest := s[2..];
      HexDecodes(rest);
      assert s == s[..2] + rest;
      assert forall i :: 0 <= i < |rest| ==> rest[i] == s[i + 2];
      assert forall i :: 2 <= i < |s| ==> s[i] == rest[i - 2];
    }
  }

  method HexDecode(value: string) returns (r: Option<seq<byte>>)
    ensures r == HexDecoded(value)
    ensures r.Some? <==> |value| % 2 == 0 && forall i :: 0 <= i < |value| ==> Text.HexVal(value[i]) >= 0
  {
    HexDecodes(value);
    if |value| % 2 != 0 {
      return None;
    }
    var out: seq<byte> := [];
    var i := 0;
    assert value[0..] == value;
    PrependedNone(HexDecoded(value));
    while i < |value|
      invariant 0 <= i <= |value| && i % 2 == 0
      invariant HexDecoded(value) == Prepended(out, HexDecoded(value[i..]))
    {
      var high, low := Text.HexVal(value[i]), Text.HexVal(value[i + 1]);
      if high < 0 || low < 0 {
        return None;
      }
      assert value[i..][2..] == value[i + 2..];
      PrependedTwice(out, high * 16 + low, HexDecoded(value[i + 2..]));
      out := out + [high * 16 + low];
      i := i + 2;
    }
    assert value[i..] == [] && out + [] == out;
    return Some(out);
  }

  // ---- Lines ----

  function Line(f: Field): string { f.name + " " + HexEncoded(f.value) + "\n" }

  function Lines(): Field -> string { (f: Field) => Line(f) }

  /** The text of fields in the order in which the map is walked. */
  function Serialized(fields: seq<Field>): string { FlatMap(Lines(), fields) }

  method SerializePdu(fields: seq<Field>) returns (out: string)
    ensures out == Serialized(fields)
  {
    out := "";
    for i := 0 to |fields|
      invariant out == Serialized(fields[..i])
    {
      var hex := HexEncode(fields[i].value);
      FlatMapSnoc(Lines(), fields[..i], fields[i]);
      assert fields[..i + 1] == fields[..i] + [fields[i]];
      out := out + (fields[i].name + " " + hex + "\n");
    }
    assert fields[..|fields|] == fields;
  }

  /** The field on a line, if it is well formed. */
  function ReadLine(line: string): (f: Option<Field>) {
    var sep := Text.FindAny(line, " ");
    if sep == |line| then None
    else match HexDecoded(line[sep + 1..])
      case None => None
      case Some(value) => Some(Field(line[..sep], value))
  }

  /** Reads a text line by line; lines that are empty are passed over. */
  function ReadWith(line: string -> Option<Field>, s: string, pdu: Pdu): Option<Pdu>
    decreases |s|
  {
    if s == [] then Some(pdu)
    else
      var end := Text.FindAny(s, "\n");
      var rest := if end < |s| then s[end + 1..] else [];
      if end == 0 then ReadWith(line, rest, pdu)
      else match line(s[..end])
        case None => None
        case Some(f) => ReadWith(line, rest, pdu[f.name := f.value])
  }

  function Read(s: string, pdu: Pdu): Option<Pdu> { ReadWith(ReadLine, s, pdu) }

  method ParseLine(line: string) returns (f: Option<Field>)
    ensures f == ReadLine(line)
  {
    var sep := Text.FindAny(line, " ");
    if sep == |line| {
      return None;
    }
    var value := HexDecode(line[sep + 1..]);
    f := if value == None then None else Some(Field(line[..sep], value.value));
  }

  /** What reading on from an index means. */
  lemma ReadFrom(line: string -> Option<Field>, str: string, start: nat, end: nat, pdu: Pdu)
    requires start < |str| && end == start + Text.FindAny(str[start..], "\n")
    ensures var next := if end < |str| then end + 1 else |str|;
      ReadWith(line, str[start..], pdu) ==
        if end == start then ReadWith(line, str[next..], pdu)
        else match line(str[start..end])
          case None => None
          case Some(f) => ReadWith(line, str[next..], pdu[f.name := f.value])
  {
    StartOfRest(str, start, end - start);
    if end < |str| {
      RestOfRest(str, start, end - start + 1);
    } else {
      assert str[|str|..] == [];
    }
  }

  method ParsePdu(str: string) returns (r: Option<Pdu>)
    ensures r == Read(str, map[])
  {
    var pdu: Pdu := map[];
    var start := 0;
    assert str[0..] == str;
    ghost var whole := Read(str, map[]);
    while start < |str|
      invariant 0 <= start <= |str| && whole == Read(str[start..], pdu)
    {
      var end := start + Text.FindAny(str[start..], "\n");
      var line := str[start..end];
      ReadFrom(ReadLine, str, start, end, pdu);
      start := if end < |str| then end + 1 else |str|;
      if line == "" {
        continue;
      }
      var f := ParseLine(line);
      if f == None {
        return None;
      }
      pdu := pdu[f.value.name := f.value.value];
    }
    assert str[start..] == [];
    return Some(pdu);
  }

  // ---- The round trip ----

  predicate PlainName(name: string) { ' ' !in name && '\n' !in name }

  /** The fields, each name once, in any order. */
  ghost predicate Lists(fields: seq<Field>, pdu: Pdu) {
    && (forall i, j :: 0 <= i < j < |fields| ==> fields[i].name != fields[j].name)
    && (forall i :: 0 <= i < |fields| ==> fields[i].name in pdu && pdu[fields[i].name] == fields[i].value)
    && (forall name :: name in pdu ==> exists i :: 0 <= i < |fields| && fields[i].name == name)
  }

  lemma LineIsRead(f: Field, rest: string, pdu: Pdu)
    requires PlainName(f.name)
    ensures Read(Line(f) + rest, pdu) == Read(rest, pdu[f.name := f.value])
  {
    var hex := HexEncoded(f.value);
    var line := f.name + " " + hex;
    HexIsPlain(f.value);
    HexRoundTrip(f.value);
    assert Line(f) + rest == line + ("\n" + rest);
    Text.FindBehind(line, "\n" + rest, "\n");
    LineFields(f);
    var s := Line(f) + rest;
    assert s[..|line|] == line && s[|line| + 1..] == rest;
  }

  lemma LineFields(f: Field)
    requires PlainName(f.name)
    ensures ReadLine(f.name + " " + HexEncoded(f.value)) == Some(f)
  {
    var hex := HexEncoded(f.value);
    var line := f.name + " " + hex;
    HexIsPlain(f.value);
    HexRoundTrip(f.value);
    assert line == f.name + (" " + hex);
    Text.FindBehind(f.name, " " + hex, " ");
    assert line[|f.name| + 1..] == hex && line[..|f.name|] == f.name;
  }

  function Updated(pdu: Pdu, fields: seq<Field>): Pdu
    decreases |fields|
  {
    if fields == [] then pdu else Updated(pdu[fields[0].name := fields[0].value], fields[1..])
  }

  lemma {:induction false} FieldsAreRead(fields: seq<Field>, pdu: Pdu)
    requires forall i :: 0 <= i < |fields| ==> PlainName(fields[i].name)
    ensures Read(Serialized(fields), pdu) == Some(Updated(pdu, fields))
    decreases |fields|
  {
    if fields != [] {
      LineIsRead(fields[0], Serialized(fields[1..]), pdu);
      FieldsAreRead(fields[1..], pdu[fields[0].name := fields[0].value]);
    }
  }

  lemma {:induction false} UpdatedHolds(pdu: Pdu, fields: seq<Field>)
    requires forall i, j :: 0 <= i < j < |fields| ==> fields[i].name != fields[j].name
    ensures forall i :: 0 <= i < |fields| ==>
              fields[i].name in Updated(pdu, fields) && Updated(pdu, fields)[fields[i].name] == fields[i].value
    ensures forall name :: name in Updated(pdu, fields) ==>
              name in pdu || exists i :: 0 <= i < |fields| && fields[i].name == name
    ensures forall name :: name in pdu && (forall i :: 0 <= i < |fields| ==> fields[i].name != name) ==>
              name in Updated(pdu, fields) && Updated(pdu, fields)[name] == pdu[name]
    decreases |fields|
  {
    if fields != [] {
      var f, rest := fields[0], fields[1..];
      UpdatedHolds(pdu[f.name := f.value], rest);
      forall i | 0 <= i < |fields|
        ensures fields[i].name in Updated(pdu, fields) && Updated(pdu, fields)[fields[i].name] == fields[i].value
      {
        if i > 0 {
          assert rest[i - 1] == fields[i];
        } else {
          assert forall k :: 0 <= k < |rest| ==> rest[k] == fields[k + 1];
        }
      }
      forall name | name in Updated(pdu, fields) && name !in pdu
        ensures exists i :: 0 <= i < |fields| && fields[i].name == name
      {
        if name != f.name {
          var k :| 0 <= k < |rest| && rest[k].name == name;
          assert fields[k + 1].name == name;
        }
      }
      forall name | name in pdu && (forall i :: 0 <= i < |fields| ==> fields[i].name != name)
        ensures name in Updated(pdu, fields) && Updated(pdu, fields)[name] == pdu[name]
      {
        assert forall k :: 0 <= k < |rest| ==> rest[k] == fields[k + 1];
      }
    }
  }

  lemma LineNameIsPlain(line: string)
    requires '\n' !in line
    ensures ReadLine(line).Some? ==> PlainName(ReadLine(line).value.name)
  {
    var sep := Text.FindAny(line, " ");
    Text.FindsFirst(line, " ");
    forall c | c in line[..sep] ensures c != ' ' && c != '\n' {
      var k :| 0 <= k < sep && line[k] == c;
    }
  }

  ghost predicate AllPlain(pdu: Pdu) { forall name :: name in pdu ==> PlainName(name) }

  lemma NextIsPlain(s: string, pdu: Pdu, end: nat, f: Field)
    requires AllPlain(pdu) && end == Text.FindAny(s, "\n") && ReadLine(s[..end]) == Some(f)
    ensures AllPlain(pdu[f.name := f.value])
  {
    Text.FindsFirst(s, "\n");
    LineNameIsPlain(s[..end]);
  }

  /** Names that come out of a text are plain. */
  lemma {:induction false} ReadNamesArePlain(s: string, pdu: Pdu)
    requires AllPlain(pdu)
    ensures Read(s, pdu).Some? ==> AllPlain(Read(s, pdu).value)
    decreases |s|
  {
    if s != [] {
      var end := Text.FindAny(s, "\n");
      var rest := if end < |s| then s[end + 1..] else [];
      var f := ReadLine(s[..end]);
      if end == 0 {
        ReadNamesArePlain(rest, pdu);
      } else if f.Some? {
        NextIsPlain(s, pdu, end, f.value);
        ReadNamesArePlain(rest, pdu[f.value.name := f.value.value]);
      }
    }
  }

  lemma FieldNamesArePlain(fields: seq<Field>, pdu: Pdu)
    requires Lists(fields, pdu) && AllPlain(pdu)
    ensures forall i :: 0 <= i < |fields| ==> PlainName(fields[i].name)
  {
  }

  lemma ListedIsUpdated(fields: seq<Field>, pdu: Pdu)
    requires Lists(fields, pdu)
    ensures Updated(map[], fields) == pdu
  {
    UpdatedHolds(map[], fields);
    var r := Updated(map[], fields);
    assert r.Keys == pdu.Keys;
  }

  /** A map is read back from its text exactly when no name holds a space or a newline. */
  lemma RoundTrip(fields: seq<Field>, pdu: Pdu)
    requires Lists(fields, pdu)
    ensures Read(Serialized(fields), map[]) == Some(pdu) <==> AllPlain(pdu)
  {
    if AllPlain(pdu) {
      FieldNamesArePlain(fields, pdu);
      FieldsAreRead(fields, map[]);
      ListedIsUpdated(fields, pdu);
    } else {
      ReadNamesArePlain(Serialized(fields), map[]);
    }
  }
}
