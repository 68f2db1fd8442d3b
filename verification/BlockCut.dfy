/**
 The cut of script and style blocks on its own: what it leaves of a page can hold a block again, and exactly
 when it does.
 */
module BlockCut {
  import opened Wrappers
  import opened VisibleText

  // ----- A page that closes up ---------------------------------------------------------------

  lemma CharKept(c: char, rest: string)
    requires c != '<'
    ensures StripBlocks([c] + rest) == [c] + StripBlocks(rest)
  {
    assert BlockLength([c] + rest) == None;
    assert ([c] + rest)[1..] == rest;
  }

  /** Text up to the first '<' is kept. */
  lemma {:induction false} Kept(front: string, rest: string)
    requires '<' !in front
    ensures StripBlocks(front + rest) == front + StripBlocks(rest)
  {
    hide BlockLength;
    if front == [] {
      assert front + rest == rest;
    } else {
      var c, tail := front[0], front[1..];
      CharKept(c, tail + rest);
      Kept(tail, rest);
      hide StripBlocks;
      assert [c] + (tail + rest) == front + rest;
      assert [c] + (tail + StripBlocks(rest)) == front + StripBlocks(rest);
    }
  }

  function Block(name: string): string {
    "<" + name + ">" + ("</" + name + ">")
  }

  lemma WholeBlock(name: string, tail: string)
    ensures NamedBlockLength(Block(name) + tail, name) == Some(|Block(name)|)
  {
    var open, close := "<" + name, "</" + name + ">";
    var s := Block(name) + tail;
    assert s == open + ">" + close + tail;
    AtChar(s, |open|, '>');
    assert At(s, |open| + 1, close);
    hide At;
  }

  lemma WholeScript(tail: string)
    ensures StripBlocks(Block("script") + tail) == StripBlocks(tail)
  {
    WholeBlock("script", tail);
    assert (Block("script") + tail)[|Block("script")|..] == tail;
    hide NamedBlockLength;
  }

  /** A '<' that no block name follows is kept. */
  lemma NotABlock(s: string)
    requires |s| >= 5 && s[0] == '<' && (s[1] == '/' || s[4] == '<')
    ensures StripBlocks(s) == "<" + StripBlocks(s[1..])
  {
    assert !("<" + "script" <= s) by {
      assert ("<" + "script")[1] == 's' && ("<" + "script")[4] == 'i';
    }
    assert !("<" + "style" <= s) by {
      assert ("<" + "style")[1] == 's' && ("<" + "style")[4] == 'l';
    }
    hide Find;
  }

  lemma ClosingTagsStay()
    ensures StripBlocks("ipt>" + "</script>") == "ipt>" + "</script>"
  {
    hide StripBlocks;
    Kept("ipt>", "</script>");
    NotABlock("</script>");
    assert "</script>"[1..] == "/script>" + "";
    Kept("/script>", "");
    EmptyStays();
  }

  const NESTED_PAGE := "<scr" + (Block("script") + ("ipt>" + "</script>"))

  /** Cutting out blocks alone does not reach a fixed point: what is left of a page can close up to a new block. */
  lemma BlocksMayRemain()
    ensures StripBlocks(NESTED_PAGE) == Block("script") && StripBlocks(StripBlocks(NESTED_PAGE)) == ""
  {
    hide StripBlocks;
    var tail := "ipt>" + "</script>";
    assert NESTED_PAGE[1..] == "scr" + (Block("script") + tail);
    assert NESTED_PAGE[4] == (Block("script") + tail)[0] == '<';
    NotABlock(NESTED_PAGE);
    Kept("scr", Block("script") + tail);
    WholeScript(tail);
    ClosingTagsStay();
    assert "<" + ("scr" + tail) == Block("script");
    WholeScript("");
    assert Block("script") + "" == Block("script");
    EmptyStays();
  }

  lemma EmptyStays()
    ensures StripBlocks("") == ""
  {
  }

  // ----- When the block cut reaches a fixed point -----------------------------------------

  /** The positions of a page, from i on, that the block cut keeps. */
  function KeptFrom(t: string, i: nat): (p: seq<nat>)
    requires i <= |t|
    ensures forall k :: 0 <= k < |p| ==> i <= p[k] < |t|
    decreases |t| - i
  {
    if i == |t| then []
    else
      match BlockLength(t[i..])
      case Some(n) => KeptFrom(t, i + n)
      case None => [i] + KeptFrom(t, i + 1)
  }

  /** Without a match nothing is dropped. */
  lemma {:induction false} NoBlockToStrip(s: string)
    requires forall j :: 0 <= j < |s| ==> BlockLength(s[j..]) == None
    ensures StripBlocks(s) == s
  {
    hide BlockLength;
    if s == [] {
    } else {
      assert s[0..] == s;
      forall j | 0 <= j < |s[1..]| ensures BlockLength(s[1..][j..]) == None {
        assert s[1..][j..] == s[j + 1..];
      }
      NoBlockToStrip(s[1..]);
    }
  }

  ghost predicate Increasing(p: seq<nat>) {
    forall a, b :: 0 <= a < b < |p| ==> p[a] < p[b]
  }

  /** The characters of a kept text are those of the page at the kept positions. */
  ghost predicate Picks(t: string, p: seq<nat>, kept: string) {
    && |p| == |kept| && Increasing(p)
    && forall k :: 0 <= k < |p| ==> p[k] < |t| && t[p[k]] == kept[k]
  }

  lemma PicksOneMore(t: string, i: nat, p: seq<nat>, kept: string)
    requires i < |t| && Picks(t, p, kept) && forall k :: 0 <= k < |p| ==> i < p[k]
    ensures Picks(t, [i] + p, [t[i]] + kept)
  {
  }

  /** No block begins at a kept position. */
  ghost predicate BlockFree(t: string, p: seq<nat>) {
    forall k :: 0 <= k < |p| ==> p[k] < |t| && BlockLength(t[p[k]..]) == None
  }

  lemma BlockFreeOneMore(t: string, i: nat, p: seq<nat>)
    requires i < |t| && BlockLength(t[i..]) == None && BlockFree(t, p)
    ensures BlockFree(t, [i] + p)
  {
    hide BlockLength;
  }

  /** What is kept is what is left of the page, and no block begins at a kept position. */
  lemma {:induction false} KeptMeaning(t: string, i: nat)
    requires i <= |t|
    ensures Picks(t, KeptFrom(t, i), StripBlocks(t[i..])) && BlockFree(t, KeptFrom(t, i))
    decreases |t| - i
  {
    hide BlockLength, Picks, BlockFree;
    if i == |t| {
      NothingKept(t);
    } else {
      match BlockLength(t[i..])
      case Some(n) =>
        KeptMeaning(t, i + n);
        assert t[i..][n..] == t[i + n..];
      case None =>
        KeptMeaning(t, i + 1);
        assert t[i..][1..] == t[i + 1..];
        PicksOneMore(t, i, KeptFrom(t, i + 1), StripBlocks(t[i + 1..]));
        BlockFreeOneMore(t, i, KeptFrom(t, i + 1));
    }
  }

  lemma NothingKept(t: string)
    ensures Picks(t, [], "") && BlockFree(t, [])
  {
  }

  /** A stretch of kept positions that stood together on the page: nothing was cut out inside it. */
  ghost predicate Whole(p: seq<nat>, from: nat, n: nat) {
    from + n <= |p| && forall m :: from <= m < from + n ==> p[m] == p[from] + (m - from)
  }

  /** A block of length n at position q, its opening tag closed by the '>' at q + j. */
  ghost predicate BlockAt(s: string, name: string, q: nat, n: nat, j: nat) {
    q <= |s| && StretchAt(s[q..], "<" + name, "</" + name + ">", n, j)
  }

  /** An opening, a '>' after it and a closing after that are enough for a block, if not the shortest. */
  lemma EnoughForBlock(s: string, open: string, close: string, j: nat, c: nat)
    requires open != [] && close != [] && open <= s
    requires |open| <= j < c && j < |s| && s[j] == '>' && At(s, c, close)
    ensures Delimited(s, open, close).Some?
  {
    AtChars(s, '>');
    hide At;
  }

  /** A part of the kept text that stood together was there before the cut, too. */
  lemma WholeAt(t: string, kept: string, p: seq<nat>, from: nat, text: string)
    requires Picks(t, p, kept) && text != [] && At(kept, from, text) && Whole(p, from, |text|)
    ensures At(t, p[from], text)
  {
    var part := kept[from..from + |text|];
    assert p[from + |text| - 1] == p[from] + (|text| - 1);
    forall k | 0 <= k < |text| ensures t[p[from] + k] == text[k] {
      assert p[from + k] == p[from] + k;
      assert kept[from + k] == part[k];
    }
  }

  /** A block of the kept text whose two name tags stood together was one on the page, too. */
  lemma WholeWasBlock(t: string, kept: string, p: seq<nat>, open: string, close: string, q: nat, n: nat, j: nat)
    requires Picks(t, p, kept) && open != [] && close != []
    requires q <= |kept| && StretchAt(kept[q..], open, close, n, j)
    requires Whole(p, q, |open|) && Whole(p, q + n - |close|, |close|)
    ensures Delimited(t[p[q]..], open, close).Some?
  {
    var last := q + n - |close|;
    StretchEnds(kept, open, close, q, n, j);
    WholeAt(t, kept, p, q, open);
    WholeAt(t, kept, p, last, close);
    var s, g, c := t[p[q]..], p[q + j] - p[q], p[last] - p[q];
    assert p[q + |open| - 1] == p[q] + (|open| - 1);
    assert s[..|open|] == t[p[q]..p[q] + |open|];
    assert s[c..c + |close|] == t[p[last]..p[last] + |close|];
    EnoughForBlock(s, open, close, g, c);
  }

  lemma NamedWasBlock(t: string, kept: string, p: seq<nat>, name: string, q: nat, n: nat, j: nat)
    requires Picks(t, p, kept) && name in {"script", "style"} && BlockAt(kept, name, q, n, j)
    requires Whole(p, q, |name| + 1) && q + n >= |name| + 3 && Whole(p, q + n - (|name| + 3), |name| + 3)
    ensures q < |p| && BlockLength(t[p[q]..]).Some?
  {
    hide StretchAt, Delimited;
    WholeWasBlock(t, kept, p, "<" + name, "</" + name + ">", q, n, j);
    NamedIsBlock(t[p[q]..], name);
  }

  /** Where the two name tags of a block lie in the whole text. */
  lemma StretchEnds(kept: string, open: string, close: string, q: nat, n: nat, j: nat)
    requires q <= |kept| && StretchAt(kept[q..], open, close, n, j)
    ensures At(kept, q, open) && At(kept, q + n - |close|, close)
    ensures |open| <= j < n - |close| && q + n <= |kept| && kept[q + j] == '>'
  {
    var last := q + n - |close|;
    assert kept[q..q + |open|] == kept[q..][..|open|] == open;
    assert kept[last..last + |close|] == kept[q..][n - |close|..n];
  }

  /** Every block of the kept text is new: one of its two name tags has come together over a cut. */
  lemma NoBlockIsWhole(t: string, name: string, q: nat, n: nat, j: nat)
    requires name in {"script", "style"} && BlockAt(StripBlocks(t), name, q, n, j)
    ensures TagsOverCut(KeptFrom(t, 0), name, q, n)
  {
    var open, close, p, kept := "<" + name, "</" + name + ">", KeptFrom(t, 0), StripBlocks(t);
    assert t[0..] == t;
    KeptMeaning(t, 0);
    hide BlockLength, StripBlocks, KeptFrom, Whole, StretchAt, Delimited;
    StretchEnds(kept, open, close, q, n, j);
    if Whole(p, q, |open|) && Whole(p, q + n - |close|, |close|) {
      NamedWasBlock(t, kept, p, name, q, n, j);
      assert false;
    }
  }

  lemma NamedIsBlock(s: string, name: string)
    requires name in {"script", "style"} && NamedBlockLength(s, name).Some?
    ensures BlockLength(s).Some?
  {
  }

  /** One of the two name tags of a block of length n at position q of the kept text lies over a cut. */
  ghost predicate TagsOverCut(p: seq<nat>, name: string, q: nat, n: nat) {
    q + n >= |name| + 3 && !(Whole(p, q, |name| + 1) && Whole(p, q + n - (|name| + 3), |name| + 3))
  }

  /** Somewhere in the kept text of a page, what is left on both sides of a cut makes up a name tag of a block. */
  ghost predicate ClosesUp(t: string) {
    exists name: string, q: nat, n: nat, j: nat ::
      name in {"script", "style"} && BlockAt(StripBlocks(t), name, q, n, j) && TagsOverCut(KeptFrom(t, 0), name, q, n)
  }

  lemma {:induction false} StripBlocksShortens(s: string, i: nat)
    requires i <= |s|
    ensures |StripBlocks(s)| <= |s|
    ensures BlockLength(s[i..]).Some? ==> |StripBlocks(s)| < |s|
  {
    hide BlockLength;
    if s == [] {
      assert BlockLength(s[i..]).None? by { EmptyIsNoBlock(); }
    } else {
      assert s[0..] == s;
      match BlockLength(s)
      case Some(n) => StripBlocksShortens(s[n..], 0);
      case None =>
        StripBlocksShortens(s[1..], if i == 0 then 0 else i - 1);
        if i > 0 {
          assert s[1..][i - 1..] == s[i..];
        }
    }
  }

  lemma EmptyIsNoBlock()
    ensures BlockLength("") == None
  {
  }

  /**
   A second block cut changes nothing exactly when no name tag of a block in the kept text has come together over
   a cut: any other block would have been cut the first time.
   */
  lemma BlockCutIsStableExactly(t: string)
    ensures StripBlocks(StripBlocks(t)) == StripBlocks(t) <==> !ClosesUp(t)
  {
    var kept := StripBlocks(t);
    hide BlockLength, StripBlocks, KeptFrom, TagsOverCut;
    if ClosesUp(t) {
      var name: string, q: nat, n: nat, j: nat :| name in {"script", "style"} && BlockAt(kept, name, q, n, j);
      StretchIsDelimited(kept[q..], "<" + name, "</" + name + ">", n, j);
      NamedIsBlock(kept[q..], name);
      StripBlocksShortens(kept, q);
    } else {
      forall q | 0 <= q < |kept| ensures BlockLength(kept[q..]) == None {
        if BlockLength(kept[q..]).Some? {
          var name, n, j := BlockIsStretch(kept[q..]);
          assert BlockAt(kept, name, q, n, j);
          NoBlockIsWhole(t, name, q, n, j);
        }
      }
      NoBlockToStrip(kept);
    }
  }

  lemma BlockIsStretch(s: string) returns (name: string, n: nat, j: nat)
    requires BlockLength(s).Some?
    ensures name in {"script", "style"} && StretchAt(s, "<" + name, "</" + name + ">", n, j)
  {
    name := if NamedBlockLength(s, "script").Some? then "script" else "style";
    j := DelimitedIsStretch(s, "<" + name, "</" + name + ">");
    n := NamedBlockLength(s, name).value;
  }

  // ----- A condition on the pieces --------------------------------------------------------

  /** Something was cut out right after the kept position number k. */
  predicate CutAfter(p: seq<nat>, k: nat) {
    k + 1 < |p| && p[k + 1] != p[k] + 1
  }

  /** No kept piece before a cut ends in a '<' without a later '>' in that piece. */
  ghost predicate NoLooseEnd(t: string) {
    var p := KeptFrom(t, 0);
    forall a: nat, k: nat :: a <= k < |p| && CutAfter(p, k) && Whole(p, a, k - a + 1) && t[p[a]] == '<' ==>
      exists g :: a < g <= k && t[p[g]] == '>'
  }

  /** A stretch that did not stand together has a first cut inside. */
  lemma {:induction false} FirstCut(p: seq<nat>, from: nat, n: nat) returns (k: nat)
    requires from + n <= |p| && !Whole(p, from, n)
    ensures from <= k < from + n - 1 && CutAfter(p, k) && Whole(p, from, k - from + 1)
  {
    if Whole(p, from, n - 1) {
      k := from + n - 2;
    } else {
      k := FirstCut(p, from, n - 1);
    }
  }

  /** With no loose end, a text from a '<' to the first '>' at most does not lie over a cut. */
  lemma TagIsWhole(t: string, from: nat, text: string)
    requires NoLooseEnd(t) && text != [] && text[0] == '<' && At(StripBlocks(t), from, text)
    requires forall i :: 0 <= i < |text| - 1 ==> text[i] != '>'
    ensures Whole(KeptFrom(t, 0), from, |text|)
  {
    var p, kept := KeptFrom(t, 0), StripBlocks(t);
    assert t[0..] == t;
    KeptMeaning(t, 0);
    hide KeptFrom, StripBlocks, BlockLength;
    if !Whole(p, from, |text|) {
      var k := FirstCut(p, from, |text|);
      var part := kept[from..from + |text|];
      assert kept[from] == part[0];
      forall g | from < g <= k ensures t[p[g]] != '>' {
        assert kept[g] == part[g - from];
      }
      assert false;
    }
  }

  /** A '<' and a script or style name after it, or a closing tag of one of them. */
  predicate IsNameTag(text: string) {
    text in {"<" + "script", "</" + "script" + ">", "<" + "style", "</" + "style" + ">"}
  }

  /** No name tag of the kept text lies over a cut. */
  ghost predicate NoTagOverCut(t: string) {
    forall from: nat, text: string :: IsNameTag(text) && At(StripBlocks(t), from, text) ==>
      Whole(KeptFrom(t, 0), from, |text|)
  }

  lemma NameTagsAreWhole(t: string, name: string, q: nat, n: nat, j: nat)
    requires NoTagOverCut(t) && name in {"script", "style"} && BlockAt(StripBlocks(t), name, q, n, j)
    ensures !TagsOverCut(KeptFrom(t, 0), name, q, n)
  {
    hide StripBlocks, KeptFrom, Whole, At;
    var open, close := "<" + name, "</" + name + ">";
    StretchEnds(StripBlocks(t), open, close, q, n, j);
    hide StretchAt;
    assert IsNameTag(open) && IsNameTag(close);
  }

  /** So if what is left on both sides of a cut makes up no name tag, one block cut is enough. */
  lemma UncutTagsAreStable(t: string)
    requires NoTagOverCut(t)
    ensures StripBlocks(StripBlocks(t)) == StripBlocks(t)
  {
    BlockCutIsStableExactly(t);
    hide StripBlocks, KeptFrom, NoTagOverCut, BlockAt, TagsOverCut;
    if ClosesUp(t) {
      var name: string, q: nat, n: nat, j: nat :|
        name in {"script", "style"} && BlockAt(StripBlocks(t), name, q, n, j)
        && TagsOverCut(KeptFrom(t, 0), name, q, n);
      NameTagsAreWhole(t, name, q, n, j);
    }
  }

  /** In particular if every piece before a cut has a '>' after its last '<'. */
  lemma ClosedPiecesAreStable(t: string)
    requires NoLooseEnd(t)
    ensures NoTagOverCut(t) && StripBlocks(StripBlocks(t)) == StripBlocks(t)
  {
    hide StripBlocks, KeptFrom, Whole, NoLooseEnd, At;
    forall from: nat, text: string | IsNameTag(text) && At(StripBlocks(t), from, text)
      ensures Whole(KeptFrom(t, 0), from, |text|)
    {
      TagIsWhole(t, from, text);
    }
    UncutTagsAreStable(t);
  }
}
