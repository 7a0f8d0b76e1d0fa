/**
 * Names relative to a zone. The panel reports full host names but takes relative ones when a record is added, so
 * the connector has to guess the zone from the records it saw.
 */
module DnsNames {
  import opened Text

  /** A host as the connector's validation and its reading of the panel's answer leave it. */
  predicate IsHost(h: string) {
    && h != "" && !IsSpace(h[0]) && !IsDot(h[0]) && !IsSpace(h[|h| - 1]) && !IsDot(h[|h| - 1])
    && forall i | 0 <= i < |h| :: !('A' <= h[i] <= 'Z')
  }

  predicate InZone(h: string, apex: string) { h == apex || EndsWith(h, "." + apex) }

  predicate IsParent(h: string, p: string) { p != "" && h != p && EndsWith(h, "." + p) }

  /** The shortest of the hosts that are proper parents of `h`. */
  function Shortest(h: string, hosts: seq<string>): (r: Option<string>)
    ensures r.Some? ==> r.value in hosts && IsParent(h, r.value)
    ensures forall p | p in hosts && IsParent(h, p) :: r.Some? && |r.value| <= |p|
  {
    if hosts == [] then None
    else
      var rest := Shortest(h, hosts[1..]);
      if IsParent(h, hosts[0]) && (rest.None? || |hosts[0]| <= |rest.value|) then Some(hosts[0]) else rest
  }

  /** `".".join(parts)`. */
  function Dotted(parts: seq<string>): string {
    if parts == [] then "" else if |parts| == 1 then parts[0] else parts[0] + "." + Dotted(parts[1..])
  }

  function Normal(host: string): string { Lower(TrimRight(Strip(host), IsDot)) }

  /** The relative name of a normalised host, given the hosts of the records seen. */
  function Relative(h: string, hosts: seq<string>): string {
    match Shortest(h, hosts)
    case Some(p) => h[..|h| - (|p| + 1)]
    case None =>
      var parts := Split(h, '.');
      if |parts| <= 2 then "" else Dotted(parts[..|parts| - 2])
  }

  function AddHost(host: string, hosts: seq<string>): string {
    var h := Normal(host);
    if h == "" then "" else Relative(h, hosts)
  }

  /** The name under which the panel stores a record that was added with a relative name. */
  function Qualify(relative: string, apex: string): string {
    if relative == "" then apex else relative + "." + apex
  }

  lemma NormalHost(h: string)
    requires IsHost(h)
    ensures Normal(h) == h
  {
    StripClean(h);
    TrimRightIs(h, "", IsDot);
    assert h + "" == h;
    assert Lower(h) == h;
  }

  lemma LowerKeeps(s: string, i: nat)
    requires i < |s|
    ensures IsSpace(Lower(s)[i]) == IsSpace(s[i]) && IsDot(Lower(s)[i]) == IsDot(s[i])
  {
  }

  lemma LettersNormal(x: string, dots: string)
    requires IsHost(Lower(x)) && forall i | 0 <= i < |dots| :: IsDot(dots[i])
    ensures Normal(x + dots) == Lower(x)
  {
    LowerKeeps(x, 0);
    LowerKeeps(x, |x| - 1);
    StripClean(x + dots);
    TrimRightIs(x, dots, IsDot);
  }

  /** Letter case, dots at the end and white space around it make no difference to a host. */
  lemma NormalIgnores(before: string, x: string, dots: string, after: string)
    requires IsHost(Lower(x)) && forall i | 0 <= i < |dots| :: IsDot(dots[i])
    requires forall i | 0 <= i < |before| :: IsSpace(before[i])
    requires forall i | 0 <= i < |after| :: IsSpace(after[i])
    ensures Normal(before + x + dots + after) == Lower(x)
  {
    StripPadded(before, x + dots, after);
    assert before + x + dots + after == before + (x + dots) + after;
    LettersNormal(x, dots);
  }

  lemma AddHostOfHost(h: string, hosts: seq<string>) returns (relative: string)
    requires IsHost(h)
    ensures relative == AddHost(h, hosts) == Relative(h, hosts)
  {
    NormalHost(h);
    relative := AddHost(h, hosts);
  }

  // ----- splitting at dots and joining again -----

  lemma {:induction false} DottedSplit(s: string)
    ensures Dotted(Split(s, '.')) == s
    ensures forall p | p in Split(s, '.') :: '.' !in p
  {
    if s != "" {
      DottedSplit(s[1..]);
      var rest := Split(s[1..], '.');
      assert s == [s[0]] + s[1..];
      if s[0] == '.' {
        assert ([""] + rest)[1..] == rest;
      } else {
        assert ([[s[0]] + rest[0]] + rest[1..])[1..] == rest[1..];
        assert rest[0] in rest;
      }
    }
  }

  lemma {:induction false} DottedAppend(a: seq<string>, b: seq<string>)
    requires a != [] && b != []
    ensures Dotted(a + b) == Dotted(a) + "." + Dotted(b)
  {
    assert (a + b)[1..] == a[1..] + b;
    if |a| > 1 {
      DottedAppend(a[1..], b);
    } else {
      assert a[1..] + b == b;
    }
  }

  lemma {:induction false} SplitDotted(parts: seq<string>)
    requires parts != [] && forall p | p in parts :: '.' !in p
    ensures Split(Dotted(parts), '.') == parts
    decreases |parts|
  {
    assert parts[0] in parts;
    if |parts| == 1 {
      SplitWhole(parts[0], '.');
    } else {
      SplitDotted(parts[1..]);
      SplitAt(parts[0], '.', Dotted(parts[1..]));
      assert parts == [parts[0]] + parts[1..];
    }
  }

  lemma {:induction false} SplitAppend(a: string, b: string)
    ensures Split(a + "." + b, '.') == Split(a, '.') + Split(b, '.')
  {
    DottedSplit(a);
    DottedSplit(b);
    var p, q := Split(a, '.'), Split(b, '.');
    DottedAppend(p, q);
    SplitDotted(p + q);
  }

  // ----- qualifying what was made relative -----

  lemma Prefixed(h: string, apex: string)
    requires EndsWith(h, "." + apex)
    ensures h == h[..|h| - |apex| - 1] + "." + apex
  {
    var k := |h| - |apex| - 1;
    assert h == h[..k] + h[k..];
  }

  lemma ThroughParent(h: string, p: string, apex: string)
    requires IsHost(h) && InZone(h, apex) && IsParent(h, p)
    ensures Qualify(h[..|h| - (|p| + 1)], apex) == h <==> p == apex
  {
    Prefixed(h, p);
    var relative := h[..|h| - (|p| + 1)];
    assert h[|relative|] == '.';
    SameTail(relative, p, apex);
  }

  lemma SameTail(relative: string, p: string, apex: string)
    ensures relative + "." + apex == relative + "." + p <==> apex == p
  {
    assert (relative + "." + apex)[|relative| + 1..] == apex;
    assert (relative + "." + p)[|relative| + 1..] == p;
  }

  /** The labels of a host end with those of its zone. */
  lemma LabelsInZone(h: string, apex: string) returns (above: seq<string>)
    requires InZone(h, apex)
    ensures Split(h, '.') == above + Split(apex, '.') && (above == [] <==> h == apex)
  {
    if h == apex {
      above := [];
    } else {
      Prefixed(h, apex);
      above := Split(h[..|h| - |apex| - 1], '.');
      SplitAppend(h[..|h| - |apex| - 1], apex);
    }
  }

  lemma LastTwoLabels(h: string) returns (relative: string, last: string)
    requires |Split(h, '.')| > 2
    ensures var parts := Split(h, '.');
      && relative == Dotted(parts[..|parts| - 2]) && h == relative + "." + last
      && Split(last, '.') == parts[|parts| - 2..]
  {
    var parts := Split(h, '.');
    var front, two := parts[..|parts| - 2], parts[|parts| - 2..];
    relative, last := Dotted(front), Dotted(two);
    DottedSplit(h);
    DottedAppend(front, two);
    assert parts == front + two;
    SplitDotted(two);
  }

  lemma SameLabels(a: string, b: string)
    ensures Split(a, '.') == Split(b, '.') <==> a == b
  {
    DottedSplit(a);
    DottedSplit(b);
  }

  lemma ThroughLabels(h: string, apex: string)
    requires IsHost(h) && InZone(h, apex)
    ensures var parts := Split(h, '.');
            Qualify(if |parts| <= 2 then "" else Dotted(parts[..|parts| - 2]), apex) == h
            <==> |Split(apex, '.')| == 2 || (h == apex && |Split(apex, '.')| == 1)
  {
    var above := LabelsInZone(h, apex);
    if |Split(h, '.')| > 2 {
      var relative, last := LastTwoLabels(h);
      assert h[|relative|] == '.';
      SameTail(relative, last, apex);
      SameLabels(apex, last);
    }
  }

  lemma RelativeQualifies(h: string, hosts: seq<string>, apex: string)
    requires IsHost(h) && InZone(h, apex)
    ensures Qualify(Relative(h, hosts), apex) == h
       <==> match Shortest(h, hosts)
            case Some(p) => p == apex
            case None => |Split(apex, '.')| == 2 || (h == apex && |Split(apex, '.')| == 1)
  {
    var parent := Shortest(h, hosts);
    if parent.Some? {
      ThroughParent(h, parent.value, apex);
    } else {
      ThroughLabels(h, apex);
    }
  }

  /**
   * The panel puts an added record back under the host it was meant for exactly when the shortest parent seen is
   * the zone itself or, with no parent seen, the zone has two labels (or one, and the host is the zone).
   */
  lemma QualifiesExactly(h: string, hosts: seq<string>, apex: string)
    requires IsHost(h) && InZone(h, apex)
    ensures Qualify(AddHost(h, hosts), apex) == h
       <==> match Shortest(h, hosts)
            case Some(p) => p == apex
            case None => |Split(apex, '.')| == 2 || (h == apex && |Split(apex, '.')| == 1)
  {
    RelativeQualifies(h, hosts, apex);
    var relative := AddHostOfHost(h, hosts);
  }

  /** With the apex among the hosts seen, and all of them in the zone, only a deeper apex itself is misplaced. */
  lemma QualifiesInZone(h: string, hosts: seq<string>, apex: string)
    requires IsHost(h) && IsHost(apex) && InZone(h, apex)
    requires apex in hosts && forall p | p in hosts :: InZone(p, apex)
    ensures Qualify(AddHost(h, hosts), apex) == h <==> h != apex || |Split(apex, '.')| <= 2
  {
    QualifiesExactly(h, hosts, apex);
    if h != apex {
      var p := Shortest(h, hosts).value;
      assert |p| == |apex| && h[|h| - |p|..] == p && h[|h| - |p|..] == apex by {
        Prefixed(h, p);
        Prefixed(h, apex);
      }
    }
  }

  /** A record added at the apex of a zone with three labels lands elsewhere. */
  lemma DeepApexMisplaced()
    ensures Qualify(AddHost("a.b.c", ["a.b.c"]), "a.b.c") != "a.b.c"
  {
    var labels := ["a", "b", "c"];
    SplitDotted(labels);
    assert labels[1..] == ["b", "c"] && labels[1..][1..] == ["c"];
    assert Dotted(labels) == "a" + "." + ("b" + "." + "c") == "a.b.c";
    QualifiesInZone("a.b.c", ["a.b.c"], "a.b.c");
  }
}
