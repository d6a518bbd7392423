/** How rendered text splits into lines again, whatever the entries that were joined. */
module KeyFileText {
  import opened Sequences
  import opened Text
  import opened KeyFile

  /** The entries without the empty ones at the end. */
  function TrimRaw(raws: seq<string>): (r: seq<string>)
    ensures |r| <= |raws| && r == raws[..|r|]
  {
    if raws != [] && raws[|raws| - 1] == "" then TrimRaw(raws[..|raws| - 1]) else raws
  }

  lemma {:induction false} JoinLast(separator: string, parts: seq<string>)
    requires |parts| >= 2
    ensures Join(separator, parts) == Join(separator, parts[..|parts| - 1]) + separator + parts[|parts| - 1]
  {
    if |parts| > 2 {
      JoinLast(separator, parts[1..]);
      var init := parts[..|parts| - 1];
      assert parts[1..][..|parts| - 2] == init[1..];
      var a, b, c := parts[0] + separator, Join(separator, init[1..]), separator + parts[|parts| - 1];
      assert a + (b + c) == (a + b) + c;
    }
  }

  /** Text that does not stop at a line break. */
  predicate Ended(s: string) {
    s != "" ==> !IsBreak(s[|s| - 1])
  }

  ghost predicate AllEnded(raws: seq<string>) {
    forall k :: 0 <= k < |raws| ==> Ended(raws[k])
  }

  lemma StripLineFeed(s: string)
    ensures StripRight(s + "\n", IsLineFeed()) == StripRight(s, IsLineFeed())
  {
    assert (s + "\n")[..|s + "\n"| - 1] == s;
  }

  lemma {:induction false} StripJoined(raws: seq<string>)
    requires AllEnded(raws)
    ensures StripRight(Join("\n", raws), IsLineFeed()) == Join("\n", TrimRaw(raws))
  {
    if raws != [] {
      var n := |raws| - 1;
      var last := raws[n];
      if last == "" {
        StripJoined(raws[..n]);
        if n > 0 {
          JoinLast("\n", raws);
          assert Join("\n", raws) == Join("\n", raws[..n]) + "\n";
          StripLineFeed(Join("\n", raws[..n]));
        }
      } else {
        if n > 0 {
          JoinLast("\n", raws);
        }
        assert Ended(last);
        assert Join("\n", raws)[|Join("\n", raws)| - 1] == last[|last| - 1];
      }
    }
  }

  /** The lines an entry fills once it is joined to others. */
  function Pieces(raw: string): seq<string> {
    if raw == "" then [""] else SplitLines(raw)
  }

  lemma {:induction false} LineEndIs(s: string, n: nat)
    requires n < |s| && Unbroken(s[..n]) && IsBreak(s[n])
    ensures LineEnd(s) == n
  {
    if n > 0 {
      assert s[..n][0] == s[0];
      assert s[1..][..n - 1] == s[..n][1..];
      LineEndIs(s[1..], n - 1);
    }
  }

  lemma OneLine(raw: string)
    requires Unbroken(raw)
    ensures Pieces(raw) == [raw]
  {
    if raw != "" {
      UnbrokenIsOneLine(raw);
    }
  }

  /** Splitting is splitting off the first line. */
  lemma SplitOff(s: string, n: nat, rest: string)
    requires n < |s| && LineEnd(s) == n && rest == s[n + BreakWidth(s, n)..]
    ensures SplitLines(s) == [s[..n]] + SplitLines(rest)
  {
  }

  /** A text up to a line feed splits on its own. */
  lemma {:induction false} SplitConcat(s: string, rest: string)
    requires Ended(s)
    ensures SplitLines(s + "\n" + rest) == Pieces(s) + SplitLines(rest)
    decreases |s|
  {
    var whole, n := s + "\n" + rest, LineEnd(s);
    assert whole[..n] == s[..n];
    if n == |s| {
      assert whole[n] == '\n' && whole[n + 1..] == rest;
      LineEndIs(whole, n);
      SplitOff(whole, n, rest);
      assert s[..n] == s;
      OneLine(s);
    } else {
      var tail := s[n + BreakWidth(s, n)..];
      SplitBroken(s, n, tail, rest);
      SplitConcat(tail, rest);
      SplitOff(s, n, tail);
      Regroup([s[..n]], SplitLines(tail), SplitLines(rest));
    }
  }

  lemma SplitBroken(s: string, n: nat, tail: string, rest: string)
    requires Ended(s) && n < |s| && LineEnd(s) == n && tail == s[n + BreakWidth(s, n)..]
    ensures tail != "" && Ended(tail)
    ensures SplitLines(s + "\n" + rest) == [s[..n]] + SplitLines(tail + "\n" + rest)
  {
    var whole, w := s + "\n" + rest, BreakWidth(s, n);
    assert whole[..n] == s[..n] && whole[n] == s[n];
    assert n + w < |s| && BreakWidth(whole, n) == w;
    assert whole[n + w..] == tail + "\n" + rest;
    LineEndIs(whole, n);
    SplitOff(whole, n, tail + "\n" + rest);
  }

  lemma SplitOne(s: string)
    requires Ended(s)
    ensures SplitLines(s + "\n") == Pieces(s)
  {
    assert s + "\n" + "" == s + "\n";
    SplitConcat(s, "");
  }

  /** Joining and splitting gives the lines of every entry, in order. */
  lemma {:induction false} SplitJoined(raws: seq<string>)
    requires AllEnded(raws) && raws != []
    ensures SplitLines(Join("\n", raws) + "\n") == FlatMap(Pieces, raws)
  {
    if |raws| == 1 {
      SplitOne(raws[0]);
      assert raws == [raws[0]];
    } else {
      SplitJoined(raws[1..]);
      var rest := Join("\n", raws[1..]);
      Regroup(raws[0] + "\n", rest, "\n");
      SplitConcat(raws[0], rest + "\n");
      assert raws == [raws[0]] + raws[1..];
      FlatMapConcat(Pieces, [raws[0]], raws[1..]);
    }
    FlatMapOne(Pieces, raws[0]);
  }

  /** Only the entries before the empty ones at the end count. */
  lemma BodyTrims(raws: seq<string>, others: seq<string>)
    requires AllEnded(raws) && AllEnded(others) && TrimRaw(raws) == TrimRaw(others)
    ensures Body(raws) == Body(others)
  {
    StripJoined(raws);
    StripJoined(others);
  }

  /** Rendering and splitting gives back the lines of every entry, but for empty ones at the end. */
  lemma BodyLines(raws: seq<string>)
    requires AllEnded(raws)
    ensures SplitLines(Body(raws)) == if TrimRaw(raws) == [] then [""] else FlatMap(Pieces, TrimRaw(raws))
  {
    StripJoined(raws);
    if TrimRaw(raws) == [] {
      assert "" + "\n" == "\n";
      SplitOne("");
    } else {
      SplitJoined(TrimRaw(raws));
    }
  }

  /** Text whose lines are the given ones. */
  function TextOf(raws: seq<string>): string {
    if raws == [] then "" else Join("\n", raws) + "\n"
  }

  lemma TextOfSplits(raws: seq<string>)
    requires forall k :: 0 <= k < |raws| ==> Unbroken(raws[k])
    ensures SplitLines(TextOf(raws)) == raws
  {
    if raws != [] {
      SplitJoined(raws);
      forall raw | raw in raws ensures Pieces(raw) == [Same(raw)] {
        OneLine(raw);
      }
      FlatMapOfOnes(Pieces, Same, raws);
      assert Map(Same, raws) == raws;
    }
  }

  function Same<T>(x: T): T {
    x
  }

  /** The last line of a text that does not stop at a break is not empty. */
  lemma {:induction false} LastPiece(s: string)
    requires s != "" && Ended(s)
    ensures SplitLines(s) != [] && SplitLines(s)[|SplitLines(s)| - 1] != ""
    decreases |s|
  {
    var n := LineEnd(s);
    if n < |s| {
      var tail := s[n + BreakWidth(s, n)..];
      SplitBroken(s, n, tail, "");
      LastPiece(tail);
      SplitOff(s, n, tail);
    } else {
      assert s[..n] == s;
      UnbrokenIsOneLine(s);
    }
  }
}
