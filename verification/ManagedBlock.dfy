/** The managed block of an nginx configuration: how a block is merged into the text around it. */
module ManagedBlock {
  import opened Text

  const BEGIN_MARKER := "# BEGIN SUBACTOR MANAGED REVERSE PROXY"
  const END_MARKER := "# END SUBACTOR MANAGED REVERSE PROXY"

  const FORWARDED_HEADERS := [
    "    proxy_http_version 1.1;",
    "    proxy_set_header Host $host;",
    "    proxy_set_header X-Forwarded-Host $host;",
    "    proxy_set_header X-Forwarded-Proto $scheme;",
    "    proxy_set_header X-Forwarded-For $proxy_add_x_forwarded_for;",
    "    proxy_set_header X-Real-IP $remote_addr;",
    "    proxy_ssl_server_name on;"
  ]

  /** `"\n".join(lines)`. */
  function Lines(lines: seq<string>): string {
    if lines == [] then "" else if |lines| == 1 then lines[0] else lines[0] + "\n" + Lines(lines[1..])
  }

  function Body(upstream: string, upstreamHost: string): string {
    Lines(
      ["location / {", "    proxy_pass " + upstream + ";"] + FORWARDED_HEADERS
      + ["    proxy_ssl_name " + upstreamHost + ";", "    proxy_ssl_verify on;", "}"])
  }

  function Block(begin: string, end: string, body: string): string { begin + "\n" + body + "\n" + end }

  /** The directives for an upstream; its host is read off by the URL library. */
  function ManagedDirectives(upstream: string, upstreamHost: string): string {
    Block(BEGIN_MARKER, END_MARKER, Body(upstream, upstreamHost)) + "\n"
  }

  function Append(text: string, part: string): string {
    if part == "" then text else if text == "" then part else text + "\n\n" + part
  }

  /** The parts that are not empty, a blank line apart. */
  function Joined(prefix: string, block: string, suffix: string): string { Append(Append(prefix, block), suffix) }

  predicate Corrupt(text: string, begin: string, end: string) {
    var s, e := Find(text, begin), Find(text, end);
    (s >= 0) != (e >= 0) || (s >= 0 && e < s)
  }

  /** Merges directives into a text, at the place of its first block or at its end; None if the markers are corrupt. */
  function MergeAt(text: string, managed: string, begin: string, end: string): Option<string> {
    var s, e := Find(text, begin), Find(text, end);
    if Corrupt(text, begin, end) then None
    else if s >= 0 then
      var suffix := RStrip(TrimLeft(text[e + |end|..], IsNewline));
      Some(Joined(RStrip(text[..s]), RStrip(managed), suffix) + "\n")
    else
      var prefix := RStrip(text);
      Some((if prefix != "" then prefix + "\n\n" else "") + managed)
  }

  function MergeManagedDirectives(existing: string, managed: string): Option<string> {
    MergeAt(existing, managed, BEGIN_MARKER, END_MARKER)
  }

  // ----- markers and blocks -----

  /** A marker is one line with one hash sign, its first character. */
  ghost predicate IsMarker(t: string) {
    |t| > 2 && t[0] == '#' && !IsSpace(t[|t| - 1]) && forall i | 0 < i < |t| :: t[i] != '#' && t[i] != '\n'
  }

  ghost predicate AreMarkers(begin: string, end: string) { IsMarker(begin) && IsMarker(end) && begin[2] != end[2] }

  ghost predicate Free(s: string, t: string) { forall j :: !OccursAt(s, t, j) }

  function Gap(prefix: string): string { if prefix == "" then "" else "\n\n" }

  /** Before a block that follows a text, a marker occurs only where it occurs in the text. */
  lemma FreeBefore(p: string, rest: string, t: string)
    requires IsMarker(t) && Free(p, t)
    ensures forall j | 0 <= j < |p + Gap(p)| :: !OccursAt(p + Gap(p) + rest, t, j)
  {
    var y := p + Gap(p) + rest;
    forall j | 0 <= j < |p + Gap(p)| && j + |t| <= |y| ensures !OccursAt(y, t, j) {
      assert y[j..j + |t|][0] == y[j];
      if j < |p| < j + |t| {
        assert y[j..j + |t|][|p| - j] == '\n';
      } else if j + |t| <= |p| {
        assert y[j..j + |t|] == p[j..j + |t|];
        assert !OccursAt(p, t, j);
      }
    }
  }

  /** In a text whose part before a block is free of both markers, they are found on the block. */
  lemma FoundOnBlock(lead: string, body: string, rest: string, begin: string, end: string)
    requires AreMarkers(begin, end) && '#' !in body
    requires forall j | 0 <= j < |lead| ::
      && !OccursAt(lead + (Block(begin, end, body) + rest), begin, j)
      && !OccursAt(lead + (Block(begin, end, body) + rest), end, j)
    ensures var y := lead + (Block(begin, end, body) + rest);
      && Find(y, begin) == |lead| && Find(y, end) == |lead| + |Block(begin, end, body)| - |end|
      && y[..|lead|] == lead && y[|lead| + |Block(begin, end, body)|..] == rest
  {
    var block := Block(begin, end, body);
    var y, e := lead + (block + rest), |lead| + |block| - |end|;
    assert y[|lead|..|lead| + |begin|] == begin;
    FindIs(y, begin, |lead|);
    assert y[e..e + |end|] == end;
    forall j | |lead| <= j < e ensures !OccursAt(y, end, j) {
      if OccursAt(y, end, j) {
        assert y[j..j + |end|][0] == '#' && y[j..j + |end|][2] == end[2];
        assert y[j] == block[j - |lead|] == '#' && y[j + 2] == end[2];
        HashInBlock(body, begin, end, j - |lead|);
      }
    }
    FindIs(y, end, e);
  }

  lemma HashInBlock(body: string, begin: string, end: string, k: nat)
    requires AreMarkers(begin, end) && '#' !in body
    requires k < |Block(begin, end, body)| - |end| && Block(begin, end, body)[k] == '#'
    ensures k == 0 && Block(begin, end, body)[2] == begin[2]
  {
    var block := Block(begin, end, body);
    assert forall i | 0 <= i < |body| :: block[|begin| + 1 + i] == body[i];
  }

  // ----- what a merged text keeps -----

  /** The parts of a text around its first block; a text without markers is all prefix. */
  function Prefix(text: string, begin: string): string {
    var s := Find(text, begin);
    if s >= 0 then RStrip(text[..s]) else RStrip(text)
  }

  function Suffix(text: string, begin: string, end: string): string {
    var e := Find(text, end);
    if Find(text, begin) >= 0 && e >= 0 then RStrip(TrimLeft(text[e + |end|..], IsNewline)) else ""
  }

  ghost predicate EndsClean(s: string) { s == "" || !IsSpace(s[|s| - 1]) }

  ghost predicate StartsClean(s: string) { s == "" || !IsNewline(s[0]) }

  /** Both branches of a merge put the directives between the same two parts. */
  lemma MergeJoins(text: string, body: string, begin: string, end: string)
    requires AreMarkers(begin, end) && !Corrupt(text, begin, end)
    ensures MergeAt(text, Block(begin, end, body) + "\n", begin, end)
         == Some(Joined(Prefix(text, begin), Block(begin, end, body), Suffix(text, begin, end)) + "\n")
  {
    var block := Block(begin, end, body);
    TrimRightIs(block, "\n", IsSpace);
    assert RStrip(block + "\n") == block;
    var p := Prefix(text, begin);
    if Find(text, begin) < 0 {
      var lead := if p != "" then p + "\n\n" else "";
      assert Joined(p, block, "") == lead + block;
      assert lead + (block + "\n") == lead + block + "\n";
    }
  }

  lemma PrefixClean(text: string, begin: string, end: string)
    requires begin != "" && end != "" && !Corrupt(text, begin, end)
    ensures var p := Prefix(text, begin); EndsClean(p) && Free(p, begin) && Free(p, end)
  {
    var i := Find(text, begin);
    var before := if i >= 0 then text[..i] else text;
    TrimRightCuts(before, IsSpace);
    FreeCut(text, before, Prefix(text, begin), begin, end);
  }

  lemma SuffixClean(text: string, begin: string, end: string)
    ensures EndsClean(Suffix(text, begin, end)) && StartsClean(Suffix(text, begin, end))
  {
    var e := Find(text, end);
    if Find(text, begin) >= 0 && e >= 0 {
      var after := TrimLeft(text[e + |end|..], IsNewline);
      TrimLeftCuts(text[e + |end|..], IsNewline);
      TrimRightCuts(after, IsSpace);
    }
  }

  lemma FreeCut(text: string, before: string, p: string, begin: string, end: string)
    requires begin != "" && end != "" && !Corrupt(text, begin, end)
    requires before == if Find(text, begin) >= 0 then text[..Find(text, begin)] else text
    requires p <= before
    ensures Free(p, begin) && Free(p, end)
  {
    forall j ensures !OccursAt(p, begin, j) && !OccursAt(p, end, j) {
      OccursInWhole(text, p, begin, j);
      OccursInWhole(text, p, end, j);
    }
  }

  lemma OccursInWhole(text: string, p: string, t: string, j: int)
    requires p <= text
    ensures OccursAt(p, t, j) ==> OccursAt(text, t, j) && j + |t| <= |p|
  {
    if OccursAt(p, t, j) {
      assert text[j..j + |t|] == p[j..j + |t|];
    }
  }

  // ----- last writer wins -----

  /** What a merge has written is read back as the same parts. */
  lemma PartsOfJoined(p: string, body: string, s: string, begin: string, end: string)
    requires AreMarkers(begin, end) && '#' !in body
    requires EndsClean(p) && EndsClean(s) && StartsClean(s) && Free(p, begin) && Free(p, end)
    ensures var y := Joined(p, Block(begin, end, body), s) + "\n";
      !Corrupt(y, begin, end) && Prefix(y, begin) == p && Suffix(y, begin, end) == s
  {
    var block, rest := Block(begin, end, body), Gap(s) + s + "\n";
    var y := Joined(p, block, s) + "\n";
    JoinedAround(p, block, s);
    LeadRead(y, p, body, rest, begin, end);
    RestRead(s);
  }

  lemma JoinedAround(p: string, block: string, s: string)
    requires block != ""
    ensures Joined(p, block, s) + "\n" == p + Gap(p) + (block + (Gap(s) + s + "\n"))
  {
    var lead := if p == "" then "" else p + "\n\n";
    var tail := if s == "" then "" else "\n\n" + s;
    assert lead == p + Gap(p);
    assert tail == Gap(s) + s;
    assert Joined(p, block, s) == lead + block + tail;
    Reassociated(lead, block, tail, "\n");
  }

  lemma Reassociated(a: string, b: string, c: string, d: string)
    ensures a + b + c + d == a + (b + (c + d))
  {
  }

  lemma LeadRead(y: string, p: string, body: string, rest: string, begin: string, end: string)
    requires AreMarkers(begin, end) && '#' !in body && EndsClean(p) && Free(p, begin) && Free(p, end)
    requires y == p + Gap(p) + (Block(begin, end, body) + rest)
    ensures !Corrupt(y, begin, end) && Prefix(y, begin) == p
    ensures Suffix(y, begin, end) == RStrip(TrimLeft(rest, IsNewline))
  {
    FreeBefore(p, Block(begin, end, body) + rest, begin);
    FreeBefore(p, Block(begin, end, body) + rest, end);
    PartsAroundBlock(y, p + Gap(p), body, rest, begin, end);
    TrimRightIs(p, Gap(p), IsSpace);
  }

  lemma PartsAroundBlock(y: string, lead: string, body: string, rest: string, begin: string, end: string)
    requires AreMarkers(begin, end) && '#' !in body && y == lead + (Block(begin, end, body) + rest)
    requires forall j | 0 <= j < |lead| :: !OccursAt(y, begin, j) && !OccursAt(y, end, j)
    ensures !Corrupt(y, begin, end)
    ensures Prefix(y, begin) == RStrip(lead) && Suffix(y, begin, end) == RStrip(TrimLeft(rest, IsNewline))
  {
    FoundOnBlock(lead, body, rest, begin, end);
  }

  lemma RestRead(s: string)
    requires EndsClean(s) && StartsClean(s)
    ensures RStrip(TrimLeft(Gap(s) + s + "\n", IsNewline)) == s
  {
    if s == "" {
      assert Gap(s) + s + "\n" == "\n";
      assert "\n"[1..] == "";
    } else {
      var rest := Gap(s) + s + "\n";
      assert rest[1..][1..] == s + "\n";
      assert TrimLeft(rest, IsNewline) == TrimLeft(rest[1..], IsNewline) == TrimLeft(s + "\n", IsNewline) == s + "\n";
      TrimRightIs(s, "\n", IsSpace);
    }
  }

  /**
   * Merging twice is merging once with the later directives; in particular merging the same directives again
   * changes nothing.
   */
  lemma LastWriterWins(text: string, older: string, newer: string, begin: string, end: string)
    requires AreMarkers(begin, end) && '#' !in older && '#' !in newer
    requires MergeAt(text, Block(begin, end, older) + "\n", begin, end).Some?
    ensures var once := MergeAt(text, Block(begin, end, older) + "\n", begin, end).value;
      MergeAt(once, Block(begin, end, newer) + "\n", begin, end)
      == MergeAt(text, Block(begin, end, newer) + "\n", begin, end)
  {
    MergeJoins(text, older, begin, end);
    MergeJoins(text, newer, begin, end);
    PrefixClean(text, begin, end);
    SuffixClean(text, begin, end);
    PartsOfJoined(Prefix(text, begin), older, Suffix(text, begin, end), begin, end);
    var once := MergeAt(text, Block(begin, end, older) + "\n", begin, end).value;
    MergeJoins(once, newer, begin, end);
  }

  // ----- what is rejected, and what is kept -----

  /** A merge is rejected exactly when one marker occurs without the other, or an end before every beginning. */
  lemma RejectedExactly(text: string, managed: string, begin: string, end: string)
    ensures MergeAt(text, managed, begin, end).None?
       <==> || (Free(text, begin) && exists j :: OccursAt(text, end, j))
            || (Free(text, end) && exists i :: OccursAt(text, begin, i))
            || (exists i, j :: OccursAt(text, begin, i) && OccursAt(text, end, j)
                            && forall k | k <= j :: !OccursAt(text, begin, k))
  {
    var s, e := Find(text, begin), Find(text, end);
    if s >= 0 && e >= 0 {
      assert OccursAt(text, begin, s) && OccursAt(text, end, e);
    }
  }

  ghost predicate Blank(s: string) { forall c | c in s :: IsSpace(c) }

  ghost predicate LineEnds(s: string) { forall c | c in s :: IsNewline(c) }

  lemma RStripSplit(s: string) returns (last: string)
    ensures s == RStrip(s) + last && Blank(last)
  {
    TrimRightCuts(s, IsSpace);
    last := s[|RStrip(s)|..];
    assert s == s[..|RStrip(s)|] + last;
  }

  lemma LineEndsSplit(s: string) returns (first: string)
    ensures s == first + TrimLeft(s, IsNewline) && LineEnds(first)
  {
    TrimLeftCuts(s, IsNewline);
    first := s[..|s| - |TrimLeft(s, IsNewline)|];
  }

  /**
   * The two parts that a merge writes around its block are all of the text outside its first block, but for white
   * space before the block and at the end, and line ends after the block.
   */
  lemma SurroundingsKept(text: string, begin: string, end: string)
    returns (before: string, block: string, after: string, last: string)
    requires AreMarkers(begin, end) && !Corrupt(text, begin, end)
    ensures text == Prefix(text, begin) + before + block + after + Suffix(text, begin, end) + last
    ensures Blank(before) && LineEnds(after) && Blank(last)
    ensures Free(text, begin) ==> block == "" && after == "" && last == ""
    ensures !Free(text, begin) ==>
      && StartsWith(block, begin) && EndsWith(block, end)
      && |Prefix(text, begin) + before| == Find(text, begin)
      && |Prefix(text, begin) + before + block| == Find(text, end) + |end|
  {
    var s, e := Find(text, begin), Find(text, end);
    if s < 0 {
      before := RStripSplit(text);
      block, after, last := "", "", "";
    } else {
      before := RStripSplit(text[..s]);
      var rest := text[e + |end|..];
      after := LineEndsSplit(rest);
      last := RStripSplit(TrimLeft(rest, IsNewline));
      block := text[s..e + |end|];
      BlockCut(text, s, e, begin, end);
      Regrouped(text, Prefix(text, begin), before, block, rest, after, Suffix(text, begin, end), last);
    }
  }

  lemma Regrouped(
    text: string, p: string, w: string, b: string, rest: string, n: string, s: string, l: string)
    requires text == (p + w) + b + rest && rest == n + (s + l)
    ensures text == p + w + b + n + s + l
  {
  }

  lemma BlockCut(text: string, s: nat, e: nat, begin: string, end: string)
    requires AreMarkers(begin, end) && OccursAt(text, begin, s) && OccursAt(text, end, e) && s <= e
    ensures text == text[..s] + text[s..e + |end|] + text[e + |end|..]
    ensures StartsWith(text[s..e + |end|], begin) && EndsWith(text[s..e + |end|], end)
  {
    assert text[s..s + |begin|][0] == text[s] == '#' && text[e] == text[e..e + |end|][0] == '#';
    assert text[s + 2] == text[s..s + |begin|][2] && text[e + 2] == text[e..e + |end|][2];
    assert forall i | 0 <= i < |begin| :: begin[i] == text[s + i];
    assert s != e;
    assert s + |begin| <= e;
  }

  // ----- the connector's own markers and directives -----

  lemma MarkersFit()
    ensures AreMarkers(BEGIN_MARKER, END_MARKER)
  {
  }

  lemma {:induction false} LinesHaveNoHash(lines: seq<string>)
    requires forall i | 0 <= i < |lines| :: '#' !in lines[i]
    ensures '#' !in Lines(lines)
  {
    if |lines| > 1 {
      LinesHaveNoHash(lines[1..]);
    }
  }

  lemma HeadersHaveNoHash()
    ensures forall i | 0 <= i < |FORWARDED_HEADERS| :: '#' !in FORWARDED_HEADERS[i]
  {
  }

  lemma BodyHasNoHash(upstream: string, upstreamHost: string)
    requires '#' !in upstream && '#' !in upstreamHost
    ensures '#' !in Body(upstream, upstreamHost)
  {
    HeadersHaveNoHash();
    var pass, name := "    proxy_pass " + upstream + ";", "    proxy_ssl_name " + upstreamHost + ";";
    assert '#' !in pass && '#' !in name;
    var first, last := ["location / {", pass], [name, "    proxy_ssl_verify on;", "}"];
    LinesHaveNoHash(first + FORWARDED_HEADERS + last);
  }

  ghost predicate Occurs(s: string, t: string) { exists j :: OccursAt(s, t, j) }

  lemma OccursWithin(before: string, s: string, after: string, t: string)
    requires Occurs(s, t)
    ensures Occurs(before + s + after, t)
  {
    var j :| OccursAt(s, t, j);
    assert (before + s + after)[|before| + j..|before| + j + |t|] == s[j..j + |t|];
    assert OccursAt(before + s + after, t, |before| + j);
  }

  lemma {:induction false} LineOccurs(lines: seq<string>, i: nat)
    requires i < |lines|
    ensures Occurs(Lines(lines), lines[i])
  {
    if i == 0 {
      assert OccursAt(Lines(lines), lines[0], 0);
    } else {
      LineOccurs(lines[1..], i - 1);
      OccursWithin(lines[0] + "\n", Lines(lines[1..]), "", lines[i]);
      assert Lines(lines) + "" == Lines(lines);
    }
  }

  lemma BodyOccurs(upstream: string, upstreamHost: string, line: string)
    requires Occurs(Body(upstream, upstreamHost), line)
    ensures Occurs(ManagedDirectives(upstream, upstreamHost), line)
  {
    var before, after := BEGIN_MARKER + "\n", "\n" + END_MARKER + "\n";
    assert ManagedDirectives(upstream, upstreamHost) == before + Body(upstream, upstreamHost) + after;
    OccursWithin(before, Body(upstream, upstreamHost), after, line);
  }

  /**
   * The directives pass requests on to the upstream, with the visitor's address, and verify its certificate against
   * the upstream's host.
   */
  lemma DirectivesName(upstream: string, upstreamHost: string)
    ensures var directives := ManagedDirectives(upstream, upstreamHost);
      && Occurs(directives, "    proxy_pass " + upstream + ";")
      && Occurs(directives, "    proxy_ssl_name " + upstreamHost + ";")
      && Occurs(directives, "    proxy_ssl_verify on;")
      && Occurs(directives, "    proxy_set_header X-Forwarded-For $proxy_add_x_forwarded_for;")
  {
    var lines := ["location / {", "    proxy_pass " + upstream + ";"] + FORWARDED_HEADERS
               + ["    proxy_ssl_name " + upstreamHost + ";", "    proxy_ssl_verify on;", "}"];
    assert |FORWARDED_HEADERS| == 7;
    forall i | i in {1, 6, 9, 10} ensures Occurs(ManagedDirectives(upstream, upstreamHost), lines[i]) {
      LineOccurs(lines, i);
      BodyOccurs(upstream, upstreamHost, lines[i]);
    }
    assert lines[1] == "    proxy_pass " + upstream + ";" && lines[9] == "    proxy_ssl_name " + upstreamHost + ";";
    assert lines[6] == "    proxy_set_header X-Forwarded-For $proxy_add_x_forwarded_for;";
    assert lines[10] == "    proxy_ssl_verify on;";
  }

  /** For upstreams without a hash sign, the only kind that a URL without a fragment has. */
  lemma MergeTwice(text: string, u: string, uh: string, v: string, vh: string)
    requires '#' !in u && '#' !in uh && '#' !in v && '#' !in vh
    requires MergeManagedDirectives(text, ManagedDirectives(u, uh)).Some?
    ensures var once := MergeManagedDirectives(text, ManagedDirectives(u, uh)).value;
      MergeManagedDirectives(once, ManagedDirectives(v, vh)) == MergeManagedDirectives(text, ManagedDirectives(v, vh))
  {
    MarkersFit();
    BodyHasNoHash(u, uh);
    BodyHasNoHash(v, vh);
    LastWriterWins(text, Body(u, uh), Body(v, vh), BEGIN_MARKER, END_MARKER);
  }
}
