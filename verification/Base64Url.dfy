/** Unpadded base64url (section 5 of RFC 4648) as the grant tokens use it. */
module Base64Url {
  import opened Text
  import opened Utf8

  type Sextet = v: int | 0 <= v < 64

  // ----- bytes and six-bit groups -----

  /** The six-bit groups of a byte string, three bytes at a time; a short last group is filled with zeros. */
  function Sextets(b: seq<Byte>): seq<Sextet> {
    if b == [] then []
    else if |b| == 1 then Group(b[0], 0, 0)[..2]
    else if |b| == 2 then Group(b[0], b[1], 0)[..3]
    else Group(b[0], b[1], b[2]) + Sextets(b[3..])
  }

  function Group(b0: Byte, b1: Byte, b2: Byte): (r: seq<Sextet>)
    ensures |r| == 4
  {
    [b0 / 4, b0 % 4 * 16 + b1 / 16, b1 % 16 * 4 + b2 / 64, b2 % 64]
  }

  function Join(v0: Sextet, v1: Sextet, v2: Sextet, v3: Sextet): (r: seq<Byte>)
    ensures |r| == 3
  {
    [v0 * 4 + v1 / 16, v1 % 16 * 16 + v2 / 4, v2 % 4 * 64 + v3]
  }

  /** The bytes of a list of groups: a single left-over group cannot hold a byte. */
  function FromSextets(v: seq<Sextet>): Option<seq<Byte>> {
    match |v|
    case 0 => Some([])
    case 1 => None
    case 2 => Some(Join(v[0], v[1], 0, 0)[..1])
    case 3 => Some(Join(v[0], v[1], v[2], 0)[..2])
    case _ =>
      match FromSextets(v[4..])
      case None => None
      case Some(rest) => Some(Join(v[0], v[1], v[2], v[3]) + rest)
  }

  lemma JoinGroup(b0: Byte, b1: Byte, b2: Byte)
    ensures var v := Group(b0, b1, b2); Join(v[0], v[1], v[2], v[3]) == [b0, b1, b2]
    ensures b2 == 0 ==> Group(b0, b1, b2)[3] == 0
    ensures b1 == b2 == 0 ==> Group(b0, b1, b2)[2] == 0
  {
    var low0, low1 := b1 / 16, b2 / 64;
    assert (b0 % 4 * 16 + low0) / 16 == b0 % 4 && (b0 % 4 * 16 + low0) % 16 == low0;
    assert (b1 % 16 * 4 + low1) / 4 == b1 % 16 && (b1 % 16 * 4 + low1) % 4 == low1;
  }

  lemma FromSextetsGroup(g: seq<Sextet>, v: seq<Sextet>)
    requires |g| == 4 && FromSextets(v).Some?
    ensures FromSextets(g + v) == Some(Join(g[0], g[1], g[2], g[3]) + FromSextets(v).value)
  {
    assert (g + v)[4..] == v;
  }

  /** A group cut short is read back as the bytes it was cut from. */
  lemma FromSextetsCut(g: seq<Sextet>, k: nat)
    requires |g| == 4 && 2 <= k < 4 && forall i | k <= i < 4 :: g[i] == 0
    ensures FromSextets(g[..k]) == Some(Join(g[0], g[1], g[2], g[3])[..k - 1])
  {
  }

  lemma {:induction false} FromSextetsRoundTrip(b: seq<Byte>)
    ensures FromSextets(Sextets(b)) == Some(b)
  {
    if |b| == 1 {
      FromSextetsOne(b);
    } else if |b| == 2 {
      FromSextetsTwo(b);
    } else if |b| >= 3 {
      var tail := b[3..];
      FromSextetsRoundTrip(tail);
      var v := Sextets(tail);
      var g := SplitGroup(b, v);
      Prepend(g, v, b[..3], tail, b);
    }
  }

  lemma SplitGroup(b: seq<Byte>, v: seq<Sextet>) returns (g: seq<Sextet>)
    requires |b| >= 3 && v == Sextets(b[3..])
    ensures |g| == 4 && Sextets(b) == g + v && Join(g[0], g[1], g[2], g[3]) == b[..3]
  {
    g := Group(b[0], b[1], b[2]);
    JoinGroup(b[0], b[1], b[2]);
  }

  lemma FromSextetsOne(b: seq<Byte>)
    requires |b| == 1
    ensures FromSextets(Sextets(b)) == Some(b)
  {
    JoinGroup(b[0], 0, 0);
    FromSextetsCut(Group(b[0], 0, 0), 2);
    assert b == [b[0], 0, 0][..1];
  }

  lemma FromSextetsTwo(b: seq<Byte>)
    requires |b| == 2
    ensures FromSextets(Sextets(b)) == Some(b)
  {
    JoinGroup(b[0], b[1], 0);
    FromSextetsCut(Group(b[0], b[1], 0), 3);
    assert b == [b[0], b[1], 0][..2];
  }

  lemma Prepend(g: seq<Sextet>, v: seq<Sextet>, head: seq<Byte>, tail: seq<Byte>, b: seq<Byte>)
    requires |g| == 4 && Join(g[0], g[1], g[2], g[3]) == head
    requires FromSextets(v) == Some(tail) && b == head + tail
    ensures FromSextets(g + v) == Some(b)
  {
    FromSextetsGroup(g, v);
  }

  // ----- the alphabet -----

  function Digit(v: Sextet): char {
    if v < 26 then (65 + v) as char
    else if v < 52 then (71 + v) as char
    else if v < 62 then (v - 4) as char
    else if v == 62 then '-' else '_'
  }

  /** The value of a character of either base64 alphabet, -1 for any other character. */
  function Value(c: char): (r: int)
    ensures -1 <= r < 64
  {
    if 'A' <= c <= 'Z' then c as int - 65
    else if 'a' <= c <= 'z' then c as int - 71
    else if '0' <= c <= '9' then c as int + 4
    else if c == '-' || c == '+' then 62
    else if c == '_' || c == '/' then 63
    else -1
  }

  predicate IsPad(c: char) { c == '=' }

  predicate InAlphabet(t: string) { forall c | c in t :: Value(c) >= 0 }

  function Digits(v: seq<Sextet>): string {
    seq(|v|, i requires 0 <= i < |v| => Digit(v[i]))
  }

  function Values(t: string): seq<Sextet>
    requires InAlphabet(t)
  {
    seq(|t|, i requires 0 <= i < |t| => assert t[i] in t; Value(t[i]))
  }

  lemma DigitValue(v: Sextet)
    ensures Value(Digit(v)) == v && Digit(v) != '.' && Digit(v) != '=' && !IsSpace(Digit(v))
  {
  }

  // ----- the codec -----

  /** The padding that brings a text of length `n` to a multiple of four; three signs where none can. */
  function Padding(n: nat): (r: string)
    ensures forall i | 0 <= i < |r| :: IsPad(r[i])
  {
    match n % 4
    case 0 => ""
    case 1 => "==="
    case 2 => "=="
    case _ => "="
  }

  /** Standard padded encoding. */
  function Padded(b: seq<Byte>): string {
    var t := Digits(Sextets(b));
    t + Padding(|t|)
  }

  function DecodePadded(p: string): Option<seq<Byte>> {
    var t := TrimRight(p, IsPad);
    if InAlphabet(t) && p == t + Padding(|t|) then FromSextets(Values(t)) else None
  }

  function Encode(b: seq<Byte>): string { TrimRight(Padded(b), IsPad) }

  /** `loose` stands for what the library makes of texts with characters outside the alphabet. */
  function Decode(t: string, loose: string -> Option<seq<Byte>>): Option<seq<Byte>> {
    if InAlphabet(t) then DecodePadded(t + Padding(|t|)) else loose(t)
  }

  ghost predicate Clean(t: string) {
    forall c | c in t :: Value(c) >= 0 && c != '.' && c != '=' && !IsSpace(c)
  }

  lemma DigitsClean(v: seq<Sextet>)
    ensures Clean(Digits(v)) && Values(Digits(v)) == v
  {
    forall i | 0 <= i < |v|
      ensures Value(Digit(v[i])) == v[i] && Digit(v[i]) != '.' && Digit(v[i]) != '=' && !IsSpace(Digit(v[i]))
    {
      DigitValue(v[i]);
    }
  }

  lemma TrimPadding(t: string)
    requires Clean(t)
    ensures TrimRight(t + Padding(|t|), IsPad) == t
  {
    var pad := Padding(|t|);
    if t != "" {
      assert t[|t| - 1] in t;
    }
    TrimRightIs(t, pad, IsPad);
  }

  /** The alphabet that is safe in URLs (section 5 of RFC 4648). */
  predicate UrlSafe(c: char) { 'A' <= c <= 'Z' || 'a' <= c <= 'z' || '0' <= c <= '9' || c == '-' || c == '_' }

  lemma DigitsSafe(v: seq<Sextet>)
    ensures forall c | c in Digits(v) :: UrlSafe(c)
  {
    forall i | 0 <= i < |v| ensures UrlSafe(Digits(v)[i]) {
      assert Digits(v)[i] == Digit(v[i]);
    }
  }

  /**
   * Encoding strips exactly the padding; the text has only letters, digits, hyphens and underscores, so no dot, no
   * padding sign and no white space.
   */
  lemma EncodeShape(b: seq<Byte>)
    ensures forall c | c in Encode(b) :: UrlSafe(c)
    ensures Clean(Encode(b)) && Encode(b) == Digits(Sextets(b))
    ensures Padded(b) == Encode(b) + Padding(|Encode(b)|)
    ensures b != [] ==> Encode(b) != ""
  {
    DigitsClean(Sextets(b));
    DigitsSafe(Sextets(b));
    TrimPadding(Digits(Sextets(b)));
    if |b| >= 3 {
      assert |Sextets(b)| == 4 + |Sextets(b[3..])|;
    }
  }

  lemma DecodeRestored(t: string)
    requires Clean(t)
    ensures InAlphabet(t) && DecodePadded(t + Padding(|t|)) == FromSextets(Values(t))
  {
    TrimPadding(t);
  }

  lemma RoundTrip(b: seq<Byte>, loose: string -> Option<seq<Byte>>)
    ensures Decode(Encode(b), loose) == Some(b)
  {
    EncodeShape(b);
    DigitsClean(Sextets(b));
    DecodeRestored(Encode(b));
    FromSextetsRoundTrip(b);
  }
}
