/** The string operations the connector takes from Python, on sequences of characters. */
module Text {

  datatype Option<+T> = None | Some(value: T)

  /** The characters that Python's `str.strip` removes. */
  predicate IsSpace(c: char) {
    var n := c as int;
    || 0x09 <= n <= 0x0D || 0x1C <= n <= 0x20 || n == 0x85 || n == 0xA0 || n == 0x1680
    || 0x2000 <= n <= 0x200A || n == 0x2028 || n == 0x2029 || n == 0x202F || n == 0x205F || n == 0x3000
  }

  predicate IsDot(c: char) { c == '.' }

  predicate IsSlash(c: char) { c == '/' }

  predicate IsNewline(c: char) { c == '\r' || c == '\n' }

  function TrimLeft(s: string, drop: char -> bool): string {
    if s == "" || !drop(s[0]) then s else TrimLeft(s[1..], drop)
  }

  function TrimRight(s: string, drop: char -> bool): string {
    if s == "" || !drop(s[|s| - 1]) then s else TrimRight(s[..|s| - 1], drop)
  }

  function RStrip(s: string): string { TrimRight(s, IsSpace) }

  function Strip(s: string): string { TrimRight(TrimLeft(s, IsSpace), IsSpace) }

  function LowerChar(c: char): char {
    if 'A' <= c <= 'Z' then (c as int + 32) as char else c
  }

  function Lower(s: string): (r: string)
    ensures |r| == |s|
  {
    seq(|s|, i requires 0 <= i < |s| => LowerChar(s[i]))
  }

  predicate EndsWith(s: string, t: string) {
    |t| <= |s| && s[|s| - |t|..] == t
  }

  predicate StartsWith(s: string, t: string) {
    t <= s
  }

  // ----- searching -----

  ghost predicate OccursAt(s: string, t: string, i: int) {
    0 <= i && i + |t| <= |s| && s[i..i + |t|] == t
  }

  /** `s.find(t, i)`: the least index from `i` on at which `t` occurs, or -1. */
  function FindFrom(s: string, t: string, i: nat): (r: int)
    ensures r == -1 || (i <= r && OccursAt(s, t, r))
    ensures forall j | i <= j && (r == -1 || j < r) :: !OccursAt(s, t, j)
    decreases |s| - i
  {
    if i + |t| > |s| then -1 else if s[i..i + |t|] == t then i else FindFrom(s, t, i + 1)
  }

  function Find(s: string, t: string): int { FindFrom(s, t, 0) }

  /** An index with an occurrence and none before it is what `find` returns. */
  lemma FindIs(s: string, t: string, i: nat)
    requires OccursAt(s, t, i)
    requires forall j | 0 <= j < i :: !OccursAt(s, t, j)
    ensures Find(s, t) == i
  {
    var r := Find(s, t);
    assert r != -1 && r <= i;
  }

  // ----- splitting -----

  /** `s.split(c)`. */
  function Split(s: string, c: char): (r: seq<string>)
    ensures |r| >= 1
  {
    if s == "" then [""]
    else
      var rest := Split(s[1..], c);
      if s[0] == c then [""] + rest else [[s[0]] + rest[0]] + rest[1..]
  }

  lemma {:induction false} SplitWhole(a: string, c: char)
    requires c !in a
    ensures Split(a, c) == [a]
  {
    if a != "" {
      assert c !in a[1..];
      SplitWhole(a[1..], c);
      assert [a[0]] + a[1..] == a;
    }
  }

  lemma {:induction false} SplitAt(a: string, c: char, b: string)
    requires c !in a
    ensures Split(a + [c] + b, c) == [a] + Split(b, c)
  {
    var s := a + [c] + b;
    if a == "" {
      assert s[1..] == b;
    } else {
      assert c !in a[1..];
      SplitAt(a[1..], c, b);
      assert s[1..] == a[1..] + [c] + b;
      assert [a[0]] + a[1..] == a;
    }
  }

  function Count(s: string, c: char): nat {
    if s == "" then 0 else (if s[0] == c then 1 else 0) + Count(s[1..], c)
  }

  lemma {:induction false} CountAppend(a: string, b: string, c: char)
    ensures Count(a + b, c) == Count(a, c) + Count(b, c)
  {
    if a == "" {
      assert a + b == b;
    } else {
      assert (a + b)[1..] == a[1..] + b;
      CountAppend(a[1..], b, c);
    }
  }

  lemma {:induction false} CountZero(a: string, c: char)
    ensures Count(a, c) == 0 <==> c !in a
  {
    if a != "" {
      CountZero(a[1..], c);
      assert a == [a[0]] + a[1..];
    }
  }

  // ----- trimming -----

  lemma {:induction false} TrimLeftCuts(s: string, drop: char -> bool)
    ensures var r := TrimLeft(s, drop);
      && |r| <= |s| && r == s[|s| - |r|..]
      && (r != "" ==> !drop(r[0]))
      && forall i | 0 <= i < |s| - |r| :: drop(s[i])
  {
    if s != "" && drop(s[0]) {
      TrimLeftCuts(s[1..], drop);
      var r := TrimLeft(s, drop);
      forall i | 0 <= i < |s| - |r| ensures drop(s[i]) {
        if i > 0 {
          assert drop(s[1..][i - 1]);
        }
      }
    }
  }

  lemma {:induction false} TrimRightCuts(s: string, drop: char -> bool)
    ensures var r := TrimRight(s, drop);
      && |r| <= |s| && r == s[..|r|]
      && (r != "" ==> !drop(r[|r| - 1]))
      && forall i | |r| <= i < |s| :: drop(s[i])
  {
    if s != "" && drop(s[|s| - 1]) {
      var t := s[..|s| - 1];
      TrimRightCuts(t, drop);
      var r := TrimRight(s, drop);
      forall i | |r| <= i < |s| ensures drop(s[i]) {
        if i < |t| {
          assert drop(t[i]);
        }
      }
    }
  }

  /** The trimmed text is the only prefix that ends cleanly and leaves nothing but dropped characters. */
  lemma {:induction false} TrimRightIs(a: string, tail: string, drop: char -> bool)
    requires a == "" || !drop(a[|a| - 1])
    requires forall i | 0 <= i < |tail| :: drop(tail[i])
    ensures TrimRight(a + tail, drop) == a
  {
    var s := a + tail;
    TrimRightCuts(s, drop);
    assert forall i | |a| <= i < |s| :: s[i] == tail[i - |a|];
    assert a != "" ==> !drop(s[|a| - 1]);
    assert s[..|a|] == a;
  }

  lemma StripClean(s: string)
    requires s == "" || (!IsSpace(s[0]) && !IsSpace(s[|s| - 1]))
    ensures Strip(s) == s
  {
  }

  lemma {:induction false} TrimLeftPadded(pad: string, s: string, drop: char -> bool)
    requires forall i | 0 <= i < |pad| :: drop(pad[i])
    ensures TrimLeft(pad + s, drop) == TrimLeft(s, drop)
  {
    if pad == "" {
      assert pad + s == s;
    } else {
      assert (pad + s)[1..] == pad[1..] + s;
      TrimLeftPadded(pad[1..], s, drop);
    }
  }

  lemma {:induction false} TrimRightPadded(s: string, pad: string, drop: char -> bool)
    requires forall i | 0 <= i < |pad| :: drop(pad[i])
    ensures TrimRight(s + pad, drop) == TrimRight(s, drop)
  {
    if pad == "" {
      assert s + pad == s;
    } else {
      assert (s + pad)[..|s + pad| - 1] == s + pad[..|pad| - 1];
      TrimRightPadded(s, pad[..|pad| - 1], drop);
    }
  }

  lemma {:induction false} TrimLeftBefore(s: string, pad: string, drop: char -> bool)
    requires forall i | 0 <= i < |pad| :: drop(pad[i])
    ensures TrimLeft(s + pad, drop) == if TrimLeft(s, drop) == "" then "" else TrimLeft(s, drop) + pad
  {
    if s == "" {
      TrimLeftPadded(pad, "", drop);
      assert s + pad == pad + "";
    } else {
      assert (s + pad)[1..] == s[1..] + pad;
      TrimLeftBefore(s[1..], pad, drop);
    }
  }

  /** Surrounding white space makes no difference. */
  lemma StripPadded(before: string, s: string, after: string)
    requires forall i | 0 <= i < |before| :: IsSpace(before[i])
    requires forall i | 0 <= i < |after| :: IsSpace(after[i])
    ensures Strip(before + s + after) == Strip(s)
  {
    assert before + s + after == before + (s + after);
    TrimLeftPadded(before, s + after, IsSpace);
    TrimLeftBefore(s, after, IsSpace);
    TrimRightPadded(TrimLeft(s, IsSpace), after, IsSpace);
  }
}
