/** Operations on text: stripping, splitting into lines, and joining. */
module Text {

  function StripLeft(s: string, drop: char -> bool): (r: string)
    ensures |r| <= |s|
    ensures r != [] ==> !drop(r[0])
  {
    if s != "" && drop(s[0]) then StripLeft(s[1..], drop) else s
  }

  function StripRight(s: string, drop: char -> bool): (r: string)
    ensures |r| <= |s|
    ensures r != [] ==> !drop(r[|r| - 1])
  {
    if s != "" && drop(s[|s| - 1]) then StripRight(s[..|s| - 1], drop) else s
  }

  lemma {:induction false} StripLeftIsSuffix(s: string, drop: char -> bool)
    ensures StripLeft(s, drop) == s[|s| - |StripLeft(s, drop)|..]
  {
    if s != "" && drop(s[0]) {
      StripLeftIsSuffix(s[1..], drop);
    }
  }

  lemma {:induction false} StripRightIsPrefix(s: string, drop: char -> bool)
    ensures StripRight(s, drop) == s[..|StripRight(s, drop)|]
  {
    if s != "" && drop(s[|s| - 1]) {
      StripRightIsPrefix(s[..|s| - 1], drop);
    }
  }

  /** The characters `str.isspace` accepts. */
  predicate IsSpace(c: char) {
    var code := c as int;
    || 0x09 <= code <= 0x0D || 0x1C <= code <= 0x20 || code == 0x85 || code == 0xA0 || code == 0x1680
    || 0x2000 <= code <= 0x200A || code == 0x2028 || code == 0x2029 || code == 0x202F || code == 0x205F || code == 0x3000
  }

  /** The characters `str.splitlines` breaks at; all of them are space. */
  predicate IsBreak(c: char) {
    var code := c as int;
    0x0A <= code <= 0x0D || 0x1C <= code <= 0x1E || code == 0x85 || code == 0x2028 || code == 0x2029
  }

  function Strip(s: string): (r: string)
    ensures |r| <= |s|
    ensures r != "" ==> !IsSpace(r[0]) && !IsSpace(r[|r| - 1])
  {
    StripRightIsPrefix(StripLeft(s, IsSpace), IsSpace);
    StripRight(StripLeft(s, IsSpace), IsSpace)
  }

  predicate Unbroken(s: string) {
    forall i :: 0 <= i < |s| ==> !IsBreak(s[i])
  }

  /** The first line break, or the length when there is none. */
  function LineEnd(s: string): (n: nat)
    ensures n <= |s| && Unbroken(s[..n])
    ensures n < |s| ==> IsBreak(s[n])
  {
    if s == "" || IsBreak(s[0]) then 0
    else
      var n := 1 + LineEnd(s[1..]);
      assert s[..n] == [s[0]] + s[1..][..n - 1];
      n
  }

  /** The length of the line break at `n`: a carriage return and a line feed are one break. */
  function BreakWidth(s: string, n: nat): (w: nat)
    requires n < |s|
    ensures 1 <= w && n + w <= |s|
  {
    if s[n] == '\r' && n + 1 < |s| && s[n + 1] == '\n' then 2 else 1
  }

  function SplitLines(s: string): (lines: seq<string>)
    ensures forall l :: l in lines ==> Unbroken(l)
    ensures s != "" ==> lines != []
    decreases |s|
  {
    if s == "" then []
    else
      var n := LineEnd(s);
      if n == |s| then [s] else [s[..n]] + SplitLines(s[n + BreakWidth(s, n)..])
  }

  lemma UnbrokenIsOneLine(s: string)
    requires Unbroken(s) && s != ""
    ensures SplitLines(s) == [s]
  {
  }

  /** Text that has a break, but not at its end, is more than one line. */
  lemma BrokenIsMoreLines(s: string)
    requires !Unbroken(s) && !IsBreak(s[|s| - 1])
    ensures |SplitLines(s)| >= 2
  {
    var n := LineEnd(s);
    assert s[..|s|] == s;
    assert n + BreakWidth(s, n) < |s|;
  }

  lemma StripUnbroken(s: string)
    requires Unbroken(s)
    ensures Unbroken(Strip(s))
  {
    StripLeftIsSuffix(s, IsSpace);
    StripRightIsPrefix(StripLeft(s, IsSpace), IsSpace);
  }

  /** Stripping is idempotent. */
  lemma StripTwice(s: string)
    ensures Strip(Strip(s)) == Strip(s)
  {
    StripOfStripped(Strip(s));
  }

  lemma StripOfStripped(s: string)
    requires s != "" ==> !IsSpace(s[0]) && !IsSpace(s[|s| - 1])
    ensures Strip(s) == s
  {
  }

  predicate StartsWith(s: string, prefix: string) {
    |prefix| <= |s| && s[..|prefix|] == prefix
  }

  function Join(separator: string, parts: seq<string>): string {
    if parts == [] then ""
    else if |parts| == 1 then parts[0]
    else parts[0] + separator + Join(separator, parts[1..])
  }

  /** `text` occurs in `s`. */
  ghost predicate Contains(s: string, text: string) {
    exists before, after :: s == before + text + after
  }

  lemma ContainsAt(s: string, before: string, text: string, after: string)
    requires s == before + text + after
    ensures Contains(s, text)
  {
  }

  /** Joining keeps every part. */
  lemma {:induction false} JoinContains(separator: string, parts: seq<string>, k: nat)
    requires k < |parts|
    ensures Contains(Join(separator, parts), parts[k])
  {
    var whole := Join(separator, parts);
    if |parts| == 1 {
      ContainsAt(whole, "", parts[0], "");
    } else if k == 0 {
      ContainsAt(whole, "", parts[0], separator + Join(separator, parts[1..]));
    } else {
      JoinContains(separator, parts[1..], k - 1);
      var tail := Join(separator, parts[1..]);
      var before, after :| tail == before + parts[k] + after;
      ContainsAt(whole, parts[0] + separator + before, parts[k], after);
    }
  }

  lemma JoinStarts(separator: string, parts: seq<string>)
    requires parts != []
    ensures parts[0] <= Join(separator, parts)
  {
  }

  /** In `text`, `s` comes before `t`. */
  ghost predicate InOrder(text: string, s: string, t: string) {
    exists before, between, after :: text == before + s + between + t + after
  }

  lemma InOrderAt(text: string, before: string, s: string, between: string, t: string, after: string)
    requires text == before + s + between + t + after
    ensures InOrder(text, s, t)
  {
  }

  lemma InOrderBehind(text: string, first: string, rest: string, s: string, t: string)
    requires text == first + rest && InOrder(rest, s, t)
    ensures InOrder(text, s, t)
  {
    var before, between, after :| rest == before + s + between + t + after;
    assert text == first + before + s + between + t + after;
    InOrderAt(text, first + before, s, between, t, after);
  }

  lemma InOrderFirst(text: string, s: string, rest: string, t: string)
    requires text == s + rest && Contains(rest, t)
    ensures InOrder(text, s, t)
  {
    var between, after :| rest == between + t + after;
    assert text == "" + s + between + t + after;
    InOrderAt(text, "", s, between, t, after);
  }

  lemma ContainsBehind(text: string, first: string, rest: string, t: string)
    requires text == first + rest && Contains(rest, t)
    ensures Contains(text, t)
  {
    var before, after :| rest == before + t + after;
    assert text == (first + before) + t + after;
    ContainsAt(text, first + before, t, after);
  }

  /** Joining keeps the order of the parts. */
  lemma {:induction false} JoinInOrder(separator: string, parts: seq<string>, k: nat, l: nat)
    requires k < l < |parts|
    ensures InOrder(Join(separator, parts), parts[k], parts[l])
  {
    var rest := Join(separator, parts[1..]);
    var whole := Join(separator, parts);
    if k == 0 {
      JoinContains(separator, parts[1..], l - 1);
      ContainsBehind(separator + rest, separator, rest, parts[l]);
      assert whole == parts[0] + (separator + rest);
      InOrderFirst(whole, parts[0], separator + rest, parts[l]);
    } else {
      JoinInOrder(separator, parts[1..], k - 1, l - 1);
      InOrderBehind(whole, parts[0] + separator, rest, parts[k], parts[l]);
    }
  }

  /** All characters of `s` are dropped. */
  ghost predicate AllDropped(s: string, drop: char -> bool) {
    forall k :: 0 <= k < |s| ==> drop(s[k])
  }

  /** `r` is `s` without the dropped characters at both ends. */
  ghost predicate IsStripped(s: string, drop: char -> bool, r: string) {
    && (r != "" ==> !drop(r[0]) && !drop(r[|r| - 1]))
    && exists before, after :: s == before + r + after && AllDropped(before, drop) && AllDropped(after, drop)
  }

  lemma {:induction false} StripLeftDrops(s: string, drop: char -> bool) returns (before: string)
    ensures s == before + StripLeft(s, drop) && AllDropped(before, drop)
  {
    if s != "" && drop(s[0]) {
      before := StripLeftDrops(s[1..], drop);
      before := [s[0]] + before;
    } else {
      before := "";
    }
  }

  lemma {:induction false} StripRightDrops(s: string, drop: char -> bool) returns (after: string)
    ensures s == StripRight(s, drop) + after && AllDropped(after, drop)
  {
    if s != "" && drop(s[|s| - 1]) {
      after := StripRightDrops(s[..|s| - 1], drop);
      after := after + [s[|s| - 1]];
    } else {
      after := "";
    }
  }

  /** Stripping both ends. */
  lemma StripBoth(s: string, drop: char -> bool)
    ensures IsStripped(s, drop, StripRight(StripLeft(s, drop), drop))
  {
    var left := StripLeft(s, drop);
    var r := StripRight(left, drop);
    var before := StripLeftDrops(s, drop);
    var after := StripRightDrops(left, drop);
    StripRightIsPrefix(left, drop);
    assert r != "" ==> r[0] == left[0];
    assert s == before + r + after;
  }
}
