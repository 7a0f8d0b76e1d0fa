/** JSON texts (RFC 8259) as `json.dumps(..., ensure_ascii=False, separators=(",", ":"))` prints them. */
module Json {
  import opened Text

  function HexDigit(v: int): char
    requires 0 <= v < 16
  {
    if v < 10 then (48 + v) as char else (87 + v) as char
  }

  function HexValue(c: char): (r: int)
    ensures -1 <= r < 16
  {
    if '0' <= c <= '9' then c as int - 48
    else if 'a' <= c <= 'f' then c as int - 87
    else if 'A' <= c <= 'F' then c as int - 55
    else -1
  }

  /** Section 7 of RFC 8259: quote, backslash and the control characters are escaped. */
  function EscapeChar(c: char): (r: string)
    ensures |r| >= 1
  {
    var n := c as int;
    if c == '"' then "\\\""
    else if c == '\\' then "\\\\"
    else if n == 8 then "\\b"
    else if n == 9 then "\\t"
    else if n == 10 then "\\n"
    else if n == 12 then "\\f"
    else if n == 13 then "\\r"
    else if n < 0x20 then ['\\', 'u', '0', '0', HexDigit(n / 16), HexDigit(n % 16)]
    else [c]
  }

  function Escape(s: string): string {
    if s == "" then "" else EscapeChar(s[0]) + Escape(s[1..])
  }

  function Quote(s: string): string { "\"" + Escape(s) + "\"" }

  /** One character of a string body and how much text it took; width 0 where none can be read. */
  function ReadChar(s: string): (r: (char, nat))
    requires s != ""
    ensures r.1 <= |s|
  {
    if s[0] == '"' || s[0] as int < 0x20 then (s[0], 0)
    else if s[0] != '\\' then (s[0], 1)
    else if |s| < 2 then (s[0], 0)
    else
      match s[1]
      case '"' => ('"', 2)
      case '\\' => ('\\', 2)
      case '/' => ('/', 2)
      case 'b' => (8 as char, 2)
      case 't' => (9 as char, 2)
      case 'n' => (10 as char, 2)
      case 'f' => (12 as char, 2)
      case 'r' => (13 as char, 2)
      case 'u' =>
        if |s| < 6 || exists i | 2 <= i < 6 :: HexValue(s[i]) < 0 then (s[0], 0)
        else
          var n := HexValue(s[2]) * 4096 + HexValue(s[3]) * 256 + HexValue(s[4]) * 16 + HexValue(s[5]);
          if 0xD800 <= n < 0xE000 then (s[0], 0) else (n as char, 6)
      case _ => (s[0], 0)
  }

  /** A string body up to its closing quote, and what follows the quote. */
  function ReadBody(s: string): (r: Option<(string, string)>)
    ensures r.Some? ==> |r.value.1| < |s|
    decreases |s|
  {
    if s == "" then None
    else if s[0] == '"' then Some(("", s[1..]))
    else
      var (c, w) := ReadChar(s);
      if w == 0 then None
      else
        match ReadBody(s[w..])
        case None => None
        case Some((v, rest)) => Some(([c] + v, rest))
  }

  function ReadString(s: string): (r: Option<(string, string)>)
    ensures r.Some? ==> |r.value.1| < |s|
  {
    if s != "" && s[0] == '"' then ReadBody(s[1..]) else None
  }

  lemma ReadEscapedChar(c: char, rest: string)
    ensures EscapeChar(c)[0] != '"'
    ensures ReadChar(EscapeChar(c) + rest) == (c, |EscapeChar(c)|)
  {
    var n := c as int;
    var s := EscapeChar(c) + rest;
    if n < 0x20 && n !in {8, 9, 10, 12, 13} {
      assert HexValue(HexDigit(n / 16)) == n / 16 && HexValue(HexDigit(n % 16)) == n % 16;
      assert s[2] == '0' && s[3] == '0' && s[4] == HexDigit(n / 16) && s[5] == HexDigit(n % 16);
    }
  }

  lemma {:induction false} ReadEscaped(s: string, rest: string)
    ensures ReadBody(Escape(s) + "\"" + rest) == Some((s, rest))
  {
    var text := Escape(s) + "\"" + rest;
    if s == "" {
      assert text[1..] == rest;
    } else {
      var head := EscapeChar(s[0]);
      var tail := Escape(s[1..]) + "\"" + rest;
      assert text == head + tail;
      ReadEscapedChar(s[0], tail);
      assert text[|head|..] == tail;
      ReadEscaped(s[1..], rest);
      assert [s[0]] + s[1..] == s;
    }
  }

  /** Reading inverts quoting, whatever follows. */
  lemma ReadQuoted(s: string, rest: string)
    ensures ReadString(Quote(s) + rest) == Some((s, rest))
  {
    assert (Quote(s) + rest)[1..] == Escape(s) + "\"" + rest;
    ReadEscaped(s, rest);
  }

  // ----- values -----

  /** The values that the connector prints: texts, lists and objects in member order. */
  datatype Value = Text(text: string) | List(items: seq<Value>) | Object(members: seq<Member>)

  datatype Member = Member(name: string, value: Value)

  function Print(v: Value): string
    decreases v
  {
    match v
    case Text(text) => Quote(text)
    case List(items) => "[" + (if items == [] then "]" else PrintItems(items))
    case Object(members) => "{" + (if members == [] then "}" else PrintMembers(members))
  }

  function PrintItems(items: seq<Value>): string
    requires items != []
    decreases items
  {
    Print(items[0]) + (if |items| == 1 then "]" else "," + PrintItems(items[1..]))
  }

  function PrintMembers(members: seq<Member>): string
    requires members != []
    decreases members
  {
    Quote(members[0].name) + ":" + Print(members[0].value)
    + (if |members| == 1 then "}" else "," + PrintMembers(members[1..]))
  }

  /** A value at the front of a text, and what follows it; white space is not skipped. */
  function Read(s: string): (r: Option<(Value, string)>)
    ensures r.Some? ==> |r.value.1| < |s|
    decreases |s|, 0
  {
    if s == "" then None
    else if s[0] == '"' then
      match ReadString(s)
      case None => None
      case Some((text, rest)) => Some((Text(text), rest))
    else if s[0] == '[' then
      if |s| > 1 && s[1] == ']' then Some((List([]), s[2..]))
      else
        match ReadItems(s[1..])
        case None => None
        case Some((items, rest)) => Some((List(items), rest))
    else if s[0] == '{' then
      if |s| > 1 && s[1] == '}' then Some((Object([]), s[2..]))
      else
        match ReadMembers(s[1..])
        case None => None
        case Some((members, rest)) => Some((Object(members), rest))
    else None
  }

  function ReadItems(s: string): (r: Option<(seq<Value>, string)>)
    ensures r.Some? ==> |r.value.1| < |s|
    decreases |s|, 1
  {
    match Read(s)
    case None => None
    case Some((v, rest)) =>
      if rest == "" then None
      else if rest[0] == ']' then Some(([v], rest[1..]))
      else if rest[0] != ',' then None
      else
        match ReadItems(rest[1..])
        case None => None
        case Some((items, after)) => Some(([v] + items, after))
  }

  function ReadMember(s: string): (r: Option<(Member, string)>)
    ensures r.Some? ==> |r.value.1| < |s|
    decreases |s|, 1
  {
    match ReadString(s)
    case None => None
    case Some((name, rest)) =>
      if rest == "" || rest[0] != ':' then None
      else
        match Read(rest[1..])
        case None => None
        case Some((v, after)) => Some((Member(name, v), after))
  }

  function ReadMembers(s: string): (r: Option<(seq<Member>, string)>)
    ensures r.Some? ==> |r.value.1| < |s|
    decreases |s|, 2
  {
    match ReadMember(s)
    case None => None
    case Some((m, rest)) =>
      if rest == "" then None
      else if rest[0] == '}' then Some(([m], rest[1..]))
      else if rest[0] != ',' then None
      else
        match ReadMembers(rest[1..])
        case None => None
        case Some((members, after)) => Some(([m] + members, after))
  }

  lemma PrintStarts(v: Value)
    ensures Print(v) != "" && Print(v)[0] in {'"', '[', '{'}
  {
  }

  // One step of each reader, on any text.

  lemma ReadListStep(s: string, items: seq<Value>, rest: string)
    requires |s| > 1 && s[0] == '[' && s[1] != ']' && ReadItems(s[1..]) == Some((items, rest))
    ensures Read(s) == Some((List(items), rest))
  {
  }

  lemma ReadObjectStep(s: string, members: seq<Member>, rest: string)
    requires |s| > 1 && s[0] == '{' && s[1] != '}' && ReadMembers(s[1..]) == Some((members, rest))
    ensures Read(s) == Some((Object(members), rest))
  {
  }

  lemma ReadItemsStep(s: string, v: Value, after: string, items: seq<Value>, rest: string)
    requires Read(s) == Some((v, after)) && after != ""
    requires after[0] == ',' && ReadItems(after[1..]) == Some((items, rest))
    ensures ReadItems(s) == Some(([v] + items, rest))
  {
  }

  lemma ReadMemberStep(s: string, name: string, middle: string, v: Value, after: string)
    requires ReadString(s) == Some((name, middle)) && middle != "" && middle[0] == ':'
    requires Read(middle[1..]) == Some((v, after))
    ensures ReadMember(s) == Some((Member(name, v), after))
  {
  }

  lemma ReadMembersStep(s: string, m: Member, after: string, members: seq<Member>, rest: string)
    requires ReadMember(s) == Some((m, after)) && after != ""
    requires after[0] == ',' && ReadMembers(after[1..]) == Some((members, rest))
    ensures ReadMembers(s) == Some(([m] + members, rest))
  {
  }

  // The shapes of the printed texts.

  lemma Shift(open: string, body: string, rest: string)
    requires |open| == 1
    ensures (open + body + rest)[1..] == body + rest && (open + body + rest)[0] == open[0]
  {
  }

  lemma ItemsStart(items: seq<Value>)
    requires items != []
    ensures PrintItems(items) != "" && PrintItems(items)[0] != ']'
  {
    PrintStarts(items[0]);
  }

  lemma MembersStart(members: seq<Member>)
    requires members != []
    ensures PrintMembers(members) != "" && PrintMembers(members)[0] == '"'
  {
  }

  /** What follows the first item of a printed list, and what follows its separator. */
  lemma ItemsShape(items: seq<Value>, rest: string) returns (after: string)
    requires items != []
    ensures PrintItems(items) + rest == Print(items[0]) + after && after != ""
    ensures |items| == 1 ==> after[0] == ']' && after[1..] == rest
    ensures |items| > 1 ==> after[0] == ',' && after[1..] == PrintItems(items[1..]) + rest
  {
    after := if |items| == 1 then "]" + rest else "," + (PrintItems(items[1..]) + rest);
  }

  lemma Cut(first: string, rest: string)
    requires |first| == 1
    ensures (first + rest)[1..] == rest && (first + rest)[0] == first[0]
  {
  }

  lemma Regrouped(name: string, value: string, tail: string, rest: string)
    ensures name + ":" + value + tail + rest == name + (":" + (value + (tail + rest)))
  {
  }

  /** What is printed after the first member's value. */
  function MembersTail(members: seq<Member>): string
    requires members != []
  {
    if |members| == 1 then "}" else "," + PrintMembers(members[1..])
  }

  lemma TailShape(members: seq<Member>, rest: string) returns (after: string)
    requires members != []
    ensures after == MembersTail(members) + rest && after != ""
    ensures |members| == 1 ==> after[0] == '}' && after[1..] == rest
    ensures |members| > 1 ==> after[0] == ',' && after[1..] == PrintMembers(members[1..]) + rest
  {
    after := MembersTail(members) + rest;
    if |members| == 1 {
      Cut("}", rest);
    } else {
      Shift(",", PrintMembers(members[1..]), rest);
    }
  }

  lemma MembersShape(members: seq<Member>, rest: string) returns (middle: string, after: string)
    requires members != []
    ensures PrintMembers(members) + rest == Quote(members[0].name) + middle
    ensures middle != "" && middle[0] == ':' && middle[1..] == Print(members[0].value) + after && after != ""
    ensures |members| == 1 ==> after[0] == '}' && after[1..] == rest
    ensures |members| > 1 ==> after[0] == ',' && after[1..] == PrintMembers(members[1..]) + rest
  {
    after := TailShape(members, rest);
    middle := HeadShape(Quote(members[0].name), Print(members[0].value), MembersTail(members), rest, after);
  }

  lemma HeadShape(name: string, value: string, tail: string, rest: string, after: string) returns (middle: string)
    requires after == tail + rest
    ensures name + ":" + value + tail + rest == name + middle
    ensures middle != "" && middle[0] == ':' && middle[1..] == value + after
  {
    middle := ":" + (value + after);
    Regrouped(name, value, tail, rest);
    Cut(":", value + after);
  }

  /** Reading inverts printing, whatever follows the printed value. */
  lemma {:induction false} ReadPrinted(v: Value, rest: string)
    ensures Read(Print(v) + rest) == Some((v, rest))
    decreases v, 1
  {
    match v {
      case Text(text) =>
        ReadQuoted(text, rest);
      case List(items) =>
        if items == [] {
          assert (Print(v) + rest)[2..] == rest;
        } else {
          ReadPrintedItems(items, rest);
          ItemsStart(items);
          Shift("[", PrintItems(items), rest);
          ReadListStep("[" + PrintItems(items) + rest, items, rest);
        }
      case Object(members) =>
        if members == [] {
          assert (Print(v) + rest)[2..] == rest;
        } else {
          ReadPrintedMembers(members, rest);
          MembersStart(members);
          Shift("{", PrintMembers(members), rest);
          ReadObjectStep("{" + PrintMembers(members) + rest, members, rest);
        }
    }
  }

  lemma {:induction false} ReadPrintedItems(items: seq<Value>, rest: string)
    requires items != []
    ensures ReadItems(PrintItems(items) + rest) == Some((items, rest))
    decreases items, 0
  {
    var after := ItemsShape(items, rest);
    ReadPrinted(items[0], after);
    if |items| == 1 {
      assert items == [items[0]];
    } else {
      ReadPrintedItems(items[1..], rest);
      ReadItemsStep(PrintItems(items) + rest, items[0], after, items[1..], rest);
      assert items == [items[0]] + items[1..];
    }
  }

  lemma {:induction false} ReadPrintedMembers(members: seq<Member>, rest: string)
    requires members != []
    ensures ReadMembers(PrintMembers(members) + rest) == Some((members, rest))
    decreases members, 0
  {
    var m := members[0];
    var middle, after := MembersShape(members, rest);
    ReadQuoted(m.name, middle);
    ReadPrinted(m.value, after);
    ReadMemberStep(PrintMembers(members) + rest, m.name, middle, m.value, after);
    if |members| == 1 {
      assert members == [m];
    } else {
      ReadPrintedMembers(members[1..], rest);
      ReadMembersStep(PrintMembers(members) + rest, m, after, members[1..], rest);
      assert members == [m] + members[1..];
    }
  }

  /** Different values have different texts. */
  lemma PrintInjective(a: Value, b: Value)
    requires Print(a) == Print(b)
    ensures a == b
  {
    ReadPrinted(a, "");
    ReadPrinted(b, "");
    assert Print(a) + "" == Print(a) && Print(b) + "" == Print(b);
  }

  // ----- objects whose members are texts -----

  type Pairs = seq<(string, string)>

  function ObjectOf(ps: Pairs): Value {
    Object(seq(|ps|, i requires 0 <= i < |ps| => Member(ps[i].0, Text(ps[i].1))))
  }

  /** The dictionary of an object whose members are all texts; a later member replaces an earlier one. */
  function Dict(members: seq<Member>, acc: map<string, string>): Option<map<string, string>> {
    if members == [] then Some(acc)
    else if !members[0].value.Text? then None
    else Dict(members[1..], acc[members[0].name := members[0].value.text])
  }

  /** A whole text read as such a dictionary. */
  function ReadDict(s: string): Option<map<string, string>> {
    match Read(s)
    case None => None
    case Some((v, rest)) => if rest == "" && v.Object? then Dict(v.members, map[]) else None
  }

  lemma ReadDictPrinted(ps: Pairs)
    ensures ReadDict(Print(ObjectOf(ps))) == Dict(ObjectOf(ps).members, map[])
  {
    ReadPrinted(ObjectOf(ps), "");
    assert Print(ObjectOf(ps)) + "" == Print(ObjectOf(ps));
  }

  function Get(d: map<string, string>, key: string): string {
    if key in d then d[key] else ""
  }

  lemma {:induction false} DictKeeps(members: seq<Member>, acc: map<string, string>, key: string)
    requires forall i | 0 <= i < |members| :: members[i].value.Text? && members[i].name != key
    ensures Dict(members, acc).Some? && Get(Dict(members, acc).value, key) == Get(acc, key)
  {
    if members != [] {
      DictKeeps(members[1..], acc[members[0].name := members[0].value.text], key);
    }
  }

  lemma {:induction false} DictLookup(members: seq<Member>, acc: map<string, string>, i: nat)
    requires i < |members| && forall j | 0 <= j < |members| :: members[j].value.Text?
    requires forall j | i < j < |members| :: members[j].name != members[i].name
    ensures Dict(members, acc).Some? && Get(Dict(members, acc).value, members[i].name) == members[i].value.text
  {
    if i == 0 {
      DictKeeps(members[1..], acc[members[0].name := members[0].value.text], members[0].name);
    } else {
      DictLookup(members[1..], acc[members[0].name := members[0].value.text], i - 1);
    }
  }

  /** Each name of a printed object of texts reads back as its own text, when the names differ. */
  lemma PrintedPairRead(ps: Pairs, i: nat)
    requires i < |ps| && forall j | i < j < |ps| :: ps[j].0 != ps[i].0
    ensures var d := ReadDict(Print(ObjectOf(ps))); d.Some? && Get(d.value, ps[i].0) == ps[i].1
  {
    ReadDictPrinted(ps);
    DictLookup(ObjectOf(ps).members, map[], i);
  }
}
