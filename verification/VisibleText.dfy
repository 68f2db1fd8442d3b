/**
 The empty-shell heuristic of the httpx fetcher: script and style blocks are cut out of a page, then
 tags, then surrounding white space, and a page with too little left counts as an empty shell.
 Both cuts are leftmost, non-overlapping substitutions.
 */
module VisibleText {
  import opened Wrappers

  /** The text occurs at position i. */
  predicate At(s: string, i: nat, text: string) {
    i + |text| <= |s| && s[i..i + |text|] == text
  }

  /** The first occurrence of a text at or after a position. */
  function Find(s: string, from: nat, text: string): (r: Option<nat>)
    requires text != []
    ensures r.Some? ==>
              from <= r.value && At(s, r.value, text) && forall i: nat :: from <= i < r.value ==> !At(s, i, text)
    ensures r.None? ==> forall i: nat :: from <= i ==> !At(s, i, text)
    decreases |s| - from
  {
    if At(s, from, text) then Some(from)
    else if from >= |s| then None
    else Find(s, from + 1, text)
  }

  /** The length of the match of `<[^>]+>` at the start of a text, if there is one. */
  function TagLength(s: string): (r: Option<nat>)
    ensures r.Some? ==> 3 <= r.value <= |s|
  {
    if s == [] || s[0] != '<' then None
    else
      match Find(s, 1, ">")
      case None => None
      case Some(j) => if j >= 2 then Some(j + 1) else None
  }

  function StripTags(s: string): string {
    if s == [] then []
    else
      match TagLength(s)
      case Some(n) => StripTags(s[n..])
      case None => [s[0]] + StripTags(s[1..])
  }

  /** The length of the shortest stretch that begins with `open`, goes on to a '>' and from there to `close`. */
  function Delimited(s: string, open: string, close: string): (r: Option<nat>)
    requires open != [] && close != []
    ensures r.Some? ==> 1 <= r.value <= |s|
  {
    if !(open <= s) then None
    else
      match Find(s, |open|, ">")
      case None => None
      case Some(j) =>
        match Find(s, j + 1, close)
        case None => None
        case Some(k) => Some(k + |close|)
  }

  /** The length of a block from `<name...>` to the first `</name>` after it, at the start of a text. */
  function NamedBlockLength(s: string, name: string): (r: Option<nat>)
    ensures r.Some? ==> 1 <= r.value <= |s|
  {
    Delimited(s, "<" + name, "</" + name + ">")
  }

  function BlockLength(s: string): (r: Option<nat>)
    ensures r.Some? ==> 1 <= r.value <= |s|
  {
    var script := NamedBlockLength(s, "script");
    if script.Some? then script else NamedBlockLength(s, "style")
  }

  function StripBlocks(s: string): string {
    if s == [] then []
    else
      match BlockLength(s)
      case Some(n) => StripBlocks(s[n..])
      case None => [s[0]] + StripBlocks(s[1..])
  }

  /** The characters that str.strip removes. */
  predicate IsSpace(c: char) {
    var n := c as int;
    || 9 <= n <= 13 || 28 <= n <= 32 || n == 0x85 || n == 0xA0 || n == 0x1680
    || 0x2000 <= n <= 0x200A || n == 0x2028 || n == 0x2029 || n == 0x202F || n == 0x205F || n == 0x3000
  }

  function TrimLeft(s: string): string {
    if s != [] && IsSpace(s[0]) then TrimLeft(s[1..]) else s
  }

  function TrimRight(s: string): string {
    if s != [] && IsSpace(s[|s| - 1]) then TrimRight(s[..|s| - 1]) else s
  }

  function Visible(text: string): string {
    TrimRight(TrimLeft(StripTags(StripBlocks(text))))
  }

  // ----- What the substitutions mean --------------------------------------------------

  lemma AtChar(s: string, i: nat, c: char)
    ensures At(s, i, [c]) <==> i < |s| && s[i] == c
  {
  }

  lemma AtChars(s: string, c: char)
    ensures forall i: nat :: At(s, i, [c]) <==> i < |s| && s[i] == c
  {
    forall i: nat ensures At(s, i, [c]) <==> i < |s| && s[i] == c {
      AtChar(s, i, c);
    }
  }

  /** A match of `<[^>]+>` of length n at the start of the text. */
  ghost predicate TagMatch(s: string, n: nat) {
    && 3 <= n <= |s| && s[0] == '<' && s[n - 1] == '>'
    && forall i :: 1 <= i < n - 1 ==> s[i] != '>'
  }

  lemma TagLengthIsMatch(s: string, n: nat)
    ensures TagLength(s) == Some(n) <==> TagMatch(s, n)
  {
    AtChars(s, '>');
    hide At;
  }

  /** A stretch of length n whose opening ends with the '>' at position j. */
  ghost predicate StretchAt(s: string, open: string, close: string, n: nat, j: nat) {
    && n <= |s| && open <= s && |open| <= j && j + 1 + |close| <= n
    && s[j] == '>' && (forall i :: |open| <= i < j ==> s[i] != '>')
    && s[n - |close|..n] == close
  }

  /** A match of the block pattern of length n at the start of the text. */
  ghost predicate BlockMatch(s: string, name: string, n: nat) {
    exists j: nat :: StretchAt(s, "<" + name, "</" + name + ">", n, j)
  }

  lemma DelimitedIsStretch(s: string, open: string, close: string) returns (j: nat)
    requires open != [] && close != [] && Delimited(s, open, close).Some?
    ensures StretchAt(s, open, close, Delimited(s, open, close).value, j)
  {
    AtChars(s, '>');
    j := Find(s, |open|, ">").value;
  }

  lemma StretchIsDelimited(s: string, open: string, close: string, n: nat, j: nat)
    requires open != [] && close != [] && StretchAt(s, open, close, n, j)
    ensures Delimited(s, open, close).Some? && Delimited(s, open, close).value <= n
  {
    AtChars(s, '>');
    assert At(s, n - |close|, close);
    hide At;
  }

  /** The block length is that of the shortest match, as a lazy pattern wants it. */
  lemma BlockLengthIsShortestMatch(s: string, name: string, n: nat)
    ensures NamedBlockLength(s, name) == Some(n) ==> BlockMatch(s, name, n)
    ensures BlockMatch(s, name, n) ==> NamedBlockLength(s, name).Some? && NamedBlockLength(s, name).value <= n
  {
    var open, close := "<" + name, "</" + name + ">";
    if NamedBlockLength(s, name) == Some(n) {
      var j := DelimitedIsStretch(s, open, close);
      assert StretchAt(s, open, close, n, j);
    }
    if BlockMatch(s, name, n) {
      var j: nat :| StretchAt(s, open, close, n, j);
      StretchIsDelimited(s, open, close, n, j);
    }
    hide StretchAt, Delimited;
  }

  /** Leftmost first: text before the first tag is kept, the tag is dropped, and so on after it. */
  lemma {:induction false} StripTagsAtFirst(s: string, i: nat, n: nat)
    requires i <= |s| && TagLength(s[i..]) == Some(n)
    requires forall j :: 0 <= j < i ==> TagLength(s[j..]) == None
    ensures StripTags(s) == s[..i] + StripTags(s[i..][n..])
  {
    hide TagLength;
    if i == 0 {
      assert s[0..] == s;
    } else {
      assert s[0..] == s;
      forall j | 0 <= j < i - 1 ensures TagLength(s[1..][j..]) == None {
        assert s[1..][j..] == s[j + 1..];
      }
      assert s[1..][i - 1..] == s[i..];
      StripTagsAtFirst(s[1..], i - 1, n);
      assert s[..i] == [s[0]] + s[1..][..i - 1];
    }
  }

  lemma {:induction false} StripBlocksAtFirst(s: string, i: nat, n: nat)
    requires i <= |s| && BlockLength(s[i..]) == Some(n)
    requires forall j :: 0 <= j < i ==> BlockLength(s[j..]) == None
    ensures StripBlocks(s) == s[..i] + StripBlocks(s[i..][n..])
  {
    hide BlockLength;
    if i == 0 {
      assert s[0..] == s;
    } else {
      assert s[0..] == s;
      forall j | 0 <= j < i - 1 ensures BlockLength(s[1..][j..]) == None {
        assert s[1..][j..] == s[j + 1..];
      }
      assert s[1..][i - 1..] == s[i..];
      StripBlocksAtFirst(s[1..], i - 1, n);
      assert s[..i] == [s[0]] + s[1..][..i - 1];
    }
  }

  // ----- No tag is left -----------------------------------------------------------

  /** The tag pattern matches nowhere in the text. */
  ghost predicate NoTag(s: string) {
    forall i :: 0 <= i <= |s| ==> TagLength(s[i..]) == None
  }

  /** A tag starts exactly at a '<' that is followed by some other character than '>' and has a '>' after that. */
  lemma TagMeaning(s: string)
    ensures TagLength(s).Some? <==> |s| >= 2 && s[0] == '<' && s[1] != '>' && '>' in s[1..]
  {
    AtChars(s, '>');
    hide At;
    if s != [] && '>' in s[1..] {
      var k :| 0 <= k < |s[1..]| && s[1..][k] == '>';
      assert s[k + 1] == '>';
    }
    if TagLength(s).Some? {
      var j := Find(s, 1, ">").value;
      assert s[1..][j - 1] == '>';
    }
  }

  lemma {:induction false} StripTagsInvents(s: string)
    ensures '>' in StripTags(s) ==> '>' in s
  {
    if s == [] {
    } else {
      match TagLength(s)
      case Some(n) => StripTagsInvents(s[n..]);
      case None => StripTagsInvents(s[1..]);
    }
  }

  lemma NoTagPrepend(c: char, rest: string)
    requires NoTag(rest) && TagLength([c] + rest).None?
    ensures NoTag([c] + rest)
  {
    forall i | 0 <= i <= |[c] + rest| ensures TagLength(([c] + rest)[i..]) == None {
      if i == 0 {
        assert ([c] + rest)[0..] == [c] + rest;
      } else {
        assert ([c] + rest)[i..] == rest[i - 1..];
      }
    }
  }

  /** After the tags are stripped, none is left: what is removed never brings a new tag together. */
  lemma {:induction false} StripTagsLeavesNoTag(s: string)
    ensures NoTag(StripTags(s))
  {
    if s == [] {
      assert forall i :: 0 <= i <= |s| ==> s[i..] == [];
    } else {
      match TagLength(s)
      case Some(n) => StripTagsLeavesNoTag(s[n..]);
      case None =>
        var rest := StripTags(s[1..]);
        StripTagsLeavesNoTag(s[1..]);
        StripTagsInvents(s[1..]);
        TagMeaning(s);
        TagMeaning([s[0]] + rest);
        if |s| >= 2 && s[1] == '>' {
          assert TagLength(s[1..]).None?;
          assert rest[0] == '>';
        }
        assert ([s[0]] + rest)[1..] == rest;
        NoTagPrepend(s[0], rest);
    }
  }

  lemma {:induction false} NothingToStrip(s: string)
    requires NoTag(s)
    ensures StripTags(s) == s
  {
    assert s[0..] == s;
    if s == [] {
    } else {
      forall i | 0 <= i <= |s[1..]| ensures TagLength(s[1..][i..]) == None {
        assert s[1..][i..] == s[i + 1..];
      }
      NothingToStrip(s[1..]);
    }
  }

  /** A part of a text without tags has none. */
  lemma NoTagInPart(s: string, a: nat, b: nat)
    requires NoTag(s) && a <= b <= |s|
    ensures NoTag(s[a..b])
  {
    forall i | 0 <= i <= b - a ensures TagLength(s[a..b][i..]) == None {
      TagMeaning(s[a..b][i..]);
      TagMeaning(s[a + i..]);
      var part, whole := s[a..b][i..], s[a + i..];
      assert forall k :: 0 <= k < |part| ==> part[k] == whole[k];
      if |part| >= 2 && '>' in part[1..] {
        var k :| 0 <= k < |part[1..]| && part[1..][k] == '>';
        assert whole[1..][k] == '>';
      }
    }
  }

  // ----- The whole pipeline ---------------------------------------------------------

  /** A block starts with a tag. */
  lemma BlockStartsWithTag(s: string, name: string)
    requires name != [] && name[0] != '>' && NamedBlockLength(s, name).Some?
    ensures TagLength(s).Some?
  {
    var open := "<" + name;
    var j := Find(s, |open|, ">").value;
    assert s[0] == open[0] && s[1] == open[1];
    AtChar(s, j, '>');
    assert s[1..][j - 1] == '>';
    TagMeaning(s);
  }

  lemma {:induction false} NoBlockWithoutTag(s: string)
    requires NoTag(s)
    ensures StripBlocks(s) == s
  {
    assert s[0..] == s;
    if s == [] {
    } else {
      if NamedBlockLength(s, "script").Some? {
        BlockStartsWithTag(s, "script");
      }
      if NamedBlockLength(s, "style").Some? {
        BlockStartsWithTag(s, "style");
      }
      NoTagInPart(s, 1, |s|);
      assert s[1..|s|] == s[1..];
      NoBlockWithoutTag(s[1..]);
    }
  }

  lemma {:induction false} TrimLeftIsPart(s: string) returns (a: nat)
    ensures a <= |s| && TrimLeft(s) == s[a..] && forall i :: 0 <= i < a ==> IsSpace(s[i])
    ensures TrimLeft(s) == [] || !IsSpace(TrimLeft(s)[0])
  {
    a := 0;
    if s != [] && IsSpace(s[0]) {
      var b := TrimLeftIsPart(s[1..]);
      a := b + 1;
    } else {
    }
  }

  lemma {:induction false} TrimRightIsPart(s: string) returns (b: nat)
    ensures b <= |s| && TrimRight(s) == s[..b] && forall i :: b <= i < |s| ==> IsSpace(s[i])
    ensures TrimRight(s) == [] || !IsSpace(TrimRight(s)[|TrimRight(s)| - 1])
  {
    b := |s|;
    if s != [] && IsSpace(s[|s| - 1]) {
      b := TrimRightIsPart(s[..|s| - 1]);
    } else {
    }
  }

  /** The visible text holds no tag, also after the white space is trimmed, and so no script or style block either. */
  lemma VisibleHasNoTag(text: string)
    ensures NoTag(Visible(text)) && StripBlocks(Visible(text)) == Visible(text)
  {
    hide StripTags, StripBlocks, NoTag, IsSpace;
    var stripped := StripTags(StripBlocks(text));
    StripTagsLeavesNoTag(StripBlocks(text));
    var a := TrimLeftIsPart(stripped);
    var b := TrimRightIsPart(TrimLeft(stripped));
    NoTagInPart(stripped, a, a + b);
    assert stripped[a..][..b] == stripped[a..a + b];
    NoBlockWithoutTag(Visible(text));
  }

  /** Taking the visible text of the visible text changes nothing. */
  lemma VisibleIsFixedPoint(text: string)
    ensures Visible(Visible(text)) == Visible(text)
  {
    var v := Visible(text);
    VisibleHasNoTag(text);
    NothingToStrip(v);
    var stripped := StripTags(StripBlocks(text));
    var a := TrimLeftIsPart(stripped);
    var b := TrimRightIsPart(TrimLeft(stripped));
    if v != [] {
      assert v[0] == TrimLeft(stripped)[0];
    }
    hide StripTags, StripBlocks;
  }

  // ----- Nothing is invented --------------------------------------------------------

  /** The first text is left of the second by dropping characters. */
  predicate IsSubsequence(a: string, b: string) {
    if a == [] then true
    else if b == [] then false
    else (a[0] == b[0] && IsSubsequence(a[1..], b[1..])) || IsSubsequence(a, b[1..])
  }

  lemma {:induction false} SubsequenceIsShorter(a: string, b: string)
    requires IsSubsequence(a, b)
    ensures |a| <= |b|
  {
    if a == [] {
    } else {
      if a[0] == b[0] && IsSubsequence(a[1..], b[1..]) {
        SubsequenceIsShorter(a[1..], b[1..]);
      } else {
        SubsequenceIsShorter(a, b[1..]);
      }
    }
  }

  lemma {:induction false} SubsequenceIsTransitive(a: string, b: string, c: string)
    requires IsSubsequence(a, b) && IsSubsequence(b, c)
    ensures IsSubsequence(a, c)
    decreases |c|
  {
    if a == [] {
    } else {
      if b[0] == c[0] && IsSubsequence(b[1..], c[1..]) {
        if a[0] == b[0] && IsSubsequence(a[1..], b[1..]) {
          SubsequenceIsTransitive(a[1..], b[1..], c[1..]);
        } else {
          SubsequenceIsTransitive(a, b[1..], c[1..]);
        }
      } else {
        SubsequenceIsTransitive(a, b, c[1..]);
      }
    }
  }

  lemma {:induction false} DropFront(a: string, b: string, n: nat)
    requires n <= |b| && IsSubsequence(a, b[n..])
    ensures IsSubsequence(a, b)
  {
    if n == 0 {
      assert b[0..] == b;
    } else {
      assert b[1..][n - 1..] == b[n..];
      DropFront(a, b[1..], n - 1);
    }
  }

  lemma {:induction false} PrefixIsSubsequence(s: string, n: nat)
    requires n <= |s|
    ensures IsSubsequence(s[..n], s)
  {
    if n == 0 {
    } else {
      assert s[..n][1..] == s[1..][..n - 1];
      PrefixIsSubsequence(s[1..], n - 1);
    }
  }

  lemma {:induction false} StripTagsDrops(s: string)
    ensures IsSubsequence(StripTags(s), s)
  {
    if s == [] {
    } else {
      match TagLength(s)
      case Some(n) =>
        StripTagsDrops(s[n..]);
        DropFront(StripTags(s), s, n);
      case None =>
        StripTagsDrops(s[1..]);
        assert StripTags(s)[1..] == StripTags(s[1..]);
    }
  }

  lemma {:induction false} StripBlocksDrops(s: string)
    ensures IsSubsequence(StripBlocks(s), s)
  {
    if s == [] {
    } else {
      match BlockLength(s)
      case Some(n) =>
        StripBlocksDrops(s[n..]);
        DropFront(StripBlocks(s), s, n);
      case None =>
        StripBlocksDrops(s[1..]);
        assert StripBlocks(s)[1..] == StripBlocks(s[1..]);
    }
  }

  /** The visible text is what is left of the page when characters are dropped. */
  lemma VisibleIsSubsequence(text: string)
    ensures IsSubsequence(Visible(text), text)
  {
    var blocks := StripBlocks(text);
    var tags := StripTags(blocks);
    var a := TrimLeftIsPart(tags);
    var b := TrimRightIsPart(TrimLeft(tags));
    StripBlocksDrops(text);
    StripTagsDrops(blocks);
    hide StripBlocks, StripTags, TrimLeft, TrimRight, IsSpace;
    PrefixIsSubsequence(tags[a..], b);
    DropFront(tags[a..][..b], tags, a);
    hide IsSubsequence;
    SubsequenceIsTransitive(Visible(text), tags, blocks);
    SubsequenceIsTransitive(Visible(text), blocks, text);
  }
}
