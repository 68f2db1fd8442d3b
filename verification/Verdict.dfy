/** The verdict of the httpx fetcher on a page: what counts as visible, and what it answers. */
module Verdict {
  import opened Wrappers
  import opened Results
  import opened Setup
  import opened VisibleText
  import opened BlockCut

  const EMPTY_SHELL_TEXT_THRESHOLD := 200

  const SHELL_MESSAGE := "Visible text below threshold \U{2014} likely JS-rendered"

  /** Bodies the heuristic is not meant for. */
  predicate IsBinary(contentType: string) {
    Contains(contentType, "pdf") || "application/" <= contentType
  }

  /** What the httpx fetcher makes of a response it accepted. */
  function HttpxOutcome(contentType: string, text: string, raw: seq<bv8>, hash: string, url: string): Outcome {
    if IsBinary(contentType) then Success(RetrievalResult("", contentType, url, hash, "httpx", Some(raw)))
    else if |Visible(text)| < EMPTY_SHELL_TEXT_THRESHOLD then
      Failure(RetrievalError(EmptyShell, SHELL_MESSAGE, "httpx"))
    else Success(RetrievalResult(text, contentType, url, hash, "httpx", Some(raw)))
  }

  // ----- What is not visible ------------------------------------------------------------

  lemma FindIs(s: string, from: nat, text: string, j: nat)
    requires text != [] && from <= j && At(s, j, text) && forall i: nat :: from <= i < j ==> !At(s, i, text)
    ensures Find(s, from, text) == Some(j)
  {
    hide At;
  }

  /** The text occurs at position k, at the end, and nowhere before. */
  ghost predicate FirstOf(s: string, text: string, k: nat) {
    k + |text| == |s| && At(s, k, text) && forall i: nat :: i < k ==> !At(s, i, text)
  }

  /** A script or style block: an opening tag with any attributes, and a body up to the first closing tag. */
  ghost predicate IsBlock(block: string, name: string, attributes: string, body: string) {
    && name in {"script", "style"} && '>' !in attributes
    && block == "<" + name + attributes + ">" + body + ("</" + name + ">")
    && FirstOf(body + ("</" + name + ">"), "</" + name + ">", |body|)
  }

  lemma AtBehind(front: string, s: string, i: nat, text: string)
    ensures At(front + s, |front| + i, text) <==> At(s, i, text)
  {
    if i + |text| <= |s| {
      assert (front + s)[|front| + i..|front| + i + |text|] == s[i..i + |text|];
    }
  }

  lemma AtBefore(s: string, rest: string, i: nat, text: string)
    requires i + |text| <= |s|
    ensures At(s + rest, i, text) <==> At(s, i, text)
  {
    assert (s + rest)[i..i + |text|] == s[i..i + |text|];
  }

  /** A first occurrence stays the first when text is put around. */
  lemma FirstAt(front: string, s: string, rest: string, text: string, k: nat)
    requires text != [] && FirstOf(s, text, k)
    ensures Find(front + (s + rest), |front|, text) == Some(|front| + k)
  {
    hide At;
    var tail := s + rest;
    AtBefore(s, rest, k, text);
    AtBehind(front, tail, k, text);
    forall i: nat | |front| <= i < |front| + k ensures !At(front + tail, i, text) {
      AtBefore(s, rest, i - |front|, text);
      AtBehind(front, tail, i - |front|, text);
    }
    FindIs(front + tail, |front|, text, |front| + k);
  }

  lemma StartsWith(open: string, attributes: string, end: string, rest: string)
    ensures open <= open + attributes + end + rest
  {
  }

  /** The scanner finds the block whatever follows it. */
  lemma BlockIsFound(block: string, name: string, attributes: string, body: string, rest: string)
    requires IsBlock(block, name, attributes, body)
    ensures NamedBlockLength(block + rest, name) == Some(|block|)
  {
    hide Find, At, FirstOf;
    var open, close := "<" + name, "</" + name + ">";
    var front := open + attributes + ">";
    OpensAt(open, attributes, body + close + rest);
    FirstAt(front, body + close, rest, close, |body|);
    Joined(front, body, close, rest);
    StartsWith(open, attributes, ">", body + close + rest);
  }

  lemma OpensAt(open: string, attributes: string, rest: string)
    requires '>' !in attributes
    ensures Find(open + attributes + ">" + rest, |open|, ">") == Some(|open| + |attributes|)
  {
    var s, j := open + attributes + ">" + rest, |open| + |attributes|;
    AtChars(s, '>');
    forall i: nat | |open| <= i < j ensures !At(s, i, ">") {
      assert s[i] == attributes[i - |open|];
    }
    assert s[j] == '>';
    hide At;
    FindIs(s, |open|, ">", j);
  }

  lemma BlockIsCut(block: string, name: string, attributes: string, body: string, rest: string)
    requires IsBlock(block, name, attributes, body)
    ensures StripBlocks(block + rest) == StripBlocks(rest)
  {
    BlockIsFound(block, name, attributes, body, rest);
    var s := block + rest;
    if name == "style" {
      assert s[2] == block[2] == ("<" + "style")[2] == 't';
      assert ("<" + "script")[2] == 'c';
    }
    assert NamedBlockLength(s, "script").Some? ==> "<" + "script" <= s;
    assert BlockLength(s) == Some(|block|);
    hide NamedBlockLength, BlockLength, IsBlock;
    assert s[|block|..] == rest;
  }

  /** A block of either name, after text without tags and before anything, is not visible. */
  lemma BlockIsInvisible(front: string, block: string, name: string, attributes: string, body: string, rest: string)
    requires '<' !in front && IsBlock(block, name, attributes, body)
    ensures Visible(front + block + rest) == Visible(front + rest)
  {
    BlockIsCut(block, name, attributes, body, rest);
    Kept(front, block + rest);
    Kept(front, rest);
    assert front + block + rest == front + (block + rest);
    hide StripBlocks, StripTags, TrimLeft, TrimRight, IsBlock;
  }

  /** Nor is a tag, if it does not open a block. */
  lemma TagIsInvisible(front: string, inner: string, rest: string)
    requires '<' !in front && '>' !in front
    requires inner != [] && '<' !in inner && '>' !in inner && !("script" <= inner) && !("style" <= inner)
    ensures Visible(front + ("<" + inner + ">") + rest) == Visible(front + rest)
  {
    var tag, cut := "<" + inner + ">", StripBlocks(rest);
    PlainTagStays(inner, rest);
    Kept(front, tag + rest);
    Kept(front, rest);
    assert front + tag + rest == front + (tag + rest);
    TextStays(front, tag + cut);
    TextStays(front, cut);
    TagIsCut(inner, cut);
    hide StripBlocks, StripTags, TrimLeft, TrimRight;
  }

  /** The block cut leaves a tag of another name. */
  lemma PlainTagStays(inner: string, rest: string)
    requires inner != [] && '<' !in inner && !("script" <= inner) && !("style" <= inner)
    ensures StripBlocks("<" + inner + ">" + rest) == "<" + inner + ">" + StripBlocks(rest)
  {
    NoBlockOpens(inner, rest);
    Kept(inner + ">", rest);
    Joined("<", inner, ">", rest);
    Joined("<", inner, ">", StripBlocks(rest));
    hide StripBlocks, BlockLength;
    FirstKept('<', inner + ">" + rest);
  }

  lemma FirstKept(c: char, rest: string)
    requires BlockLength([c] + rest) == None
    ensures StripBlocks([c] + rest) == [c] + StripBlocks(rest)
  {
    assert ([c] + rest)[1..] == rest;
    hide BlockLength;
  }

  lemma Joined(a: string, b: string, c: string, d: string)
    ensures a + b + c + d == a + (b + c + d)
  {
  }

  lemma NoBlockOpens(inner: string, rest: string)
    requires inner != [] && '<' !in inner && !("script" <= inner) && !("style" <= inner)
    ensures BlockLength("<" + (inner + ">" + rest)) == None
  {
    var s := "<" + (inner + ">" + rest);
    assert s == "<" + inner + (">" + rest);
    if "<" + "script" <= s {
      NameInside(inner, rest, "script");
    }
    if "<" + "style" <= s {
      NameInside(inner, rest, "style");
    }
    hide Find;
  }

  /** A tag that begins with a name has it inside. */
  lemma NameInside(inner: string, rest: string, name: string)
    requires "<" + name <= "<" + inner + (">" + rest) && '>' !in name
    ensures name <= inner
  {
    var s := "<" + inner + (">" + rest);
    assert forall i :: 0 <= i < |name| ==> name[i] == ("<" + name)[i + 1] == s[i + 1];
    var k := if |inner| < |name| then |inner| else 0;
    assert name != [] ==> name[k] in name;
  }

  lemma {:induction false} TextStays(front: string, rest: string)
    requires '<' !in front
    ensures StripTags(front + rest) == front + StripTags(rest)
  {
    if front == [] {
      assert front + rest == rest;
    } else {
      var s := front + rest;
      assert s[0] == front[0] && s[1..] == front[1..] + rest;
      TextStays(front[1..], rest);
      assert TagLength(s) == None;
      assert [s[0]] + (front[1..] + StripTags(rest)) == front + StripTags(rest);
    }
  }

  lemma TagIsCut(inner: string, rest: string)
    requires inner != [] && '>' !in inner
    ensures StripTags("<" + inner + ">" + rest) == StripTags(rest)
  {
    var s, n := "<" + inner + ">" + rest, |inner| + 2;
    assert s[0] == '<' && s[n - 1] == '>';
    assert forall i :: 1 <= i < n - 1 ==> s[i] == inner[i - 1];
    TagLengthIsMatch(s, n);
    assert s[n..] == rest;
    hide TagLength;
  }

  // ----- What is visible ----------------------------------------------------------------

  /** Blanks, tabs and breaks of every kind. */
  predicate IsBlank(s: string) {
    forall i :: 0 <= i < |s| ==>
      s[i] in {' ', '\t', '\n', '\U{B}', '\U{C}', '\r', '\U{85}', '\U{A0}', '\U{2003}', '\U{2028}', '\U{3000}'}
  }

  /** The text starts and ends with a printing character. */
  predicate IsTrimmed(s: string) {
    s != [] && '!' <= s[0] <= '~' && '!' <= s[|s| - 1] <= '~'
  }

  lemma {:induction false} BlanksGo(before: string, core: string)
    requires IsBlank(before) && core != [] && !IsSpace(core[0])
    ensures TrimLeft(before + core) == core
  {
    if before == [] {
      assert before + core == core;
    } else {
      assert (before + core)[0] == before[0] && (before + core)[1..] == before[1..] + core;
      BlanksGo(before[1..], core);
    }
  }

  lemma {:induction false} BlanksGoBehind(core: string, after: string)
    requires IsBlank(after) && core != [] && !IsSpace(core[|core| - 1])
    ensures TrimRight(core + after) == core
  {
    var s := core + after;
    if after == [] {
      assert s == core;
    } else {
      assert s[|s| - 1] == after[|after| - 1] && s[..|s| - 1] == core + after[..|after| - 1];
      BlanksGoBehind(core, after[..|after| - 1]);
    }
  }

  /** Of a text without tags all is visible but the blanks around it. */
  lemma PlainTextIsVisible(before: string, core: string, after: string)
    requires IsBlank(before) && IsBlank(after) && IsTrimmed(core) && '<' !in core
    ensures Visible(before + core + after) == core
  {
    hide StripBlocks, StripTags, TrimLeft, TrimRight;
    var text := before + core + after;
    AllIsLeft(text);
    assert text == before + (core + after);
    BlanksGo(before, core + after);
    BlanksGoBehind(core, after);
  }

  lemma AllIsLeft(text: string)
    requires '<' !in text
    ensures StripBlocks(text) == text && StripTags(text) == text
  {
    Kept(text, []);
    TextStays(text, []);
    NothingLeft();
    assert text + [] == text;
    hide StripBlocks, StripTags, Visible;
  }

  lemma NothingLeft()
    ensures StripBlocks("") == "" && StripTags("") == "" && Visible("") == ""
  {
  }

  // ----- The verdict ---------------------------------------------------------------------

  /**
   A body of a pdf or application type is a success with its bytes and without text. Any other page is an empty
   shell if fewer than 200 characters of it are visible, and otherwise a success with all its text and its bytes.
   */
  lemma OutcomeIs(contentType: string, text: string, raw: seq<bv8>, hash: string, url: string)
    ensures var o := HttpxOutcome(contentType, text, raw, hash, url);
            if (exists i: nat :: StandsAt(contentType, i, "pdf")) || StandsAt(contentType, 0, "application/") then
              o == Success(RetrievalResult("", contentType, url, hash, "httpx", Some(raw)))
            else if |Visible(text)| < 200 then o.Failure? && o.error.errorType == EmptyShell
            else o == Success(RetrievalResult(text, contentType, url, hash, "httpx", Some(raw)))
  {
    ContainsIsOccurrence(contentType, "pdf");
    hide Visible, Contains;
  }

  /** A page that is one script or style block is an empty shell, however long it is. */
  lemma BlockIsShell(contentType: string, block: string, name: string, attributes: string, body: string,
                     raw: seq<bv8>, hash: string, url: string)
    requires !IsBinary(contentType) && IsBlock(block, name, attributes, body)
    ensures var o := HttpxOutcome(contentType, block, raw, hash, url);
            o.Failure? && o.error.errorType == EmptyShell
  {
    BlockIsInvisible("", block, name, attributes, body, "");
    NothingLeft();
    assert "" + block + "" == block;
    hide Visible, IsBinary, IsBlock;
  }

  /** A text without tags is a success exactly if 200 characters are left without the blanks around it. */
  lemma PlainTextVerdict(contentType: string, before: string, core: string, after: string, raw: seq<bv8>, hash: string,
                         url: string)
    requires !IsBinary(contentType)
    requires IsBlank(before) && IsBlank(after) && IsTrimmed(core) && '<' !in core
    ensures var text := before + core + after;
            var o := HttpxOutcome(contentType, text, raw, hash, url);
            (o.Success? <==> |core| >= 200) && (o.Success? ==> o.result.content == text)
  {
    PlainTextIsVisible(before, core, after);
    hide Visible, IsBinary;
  }

  /**
   The verdict on a page is the verdict on its visible text; every text page shorter than the threshold is
   called an empty shell, whatever it says; and a success always carries bytes for a parser.
   */
  lemma VerdictIsAboutVisibleText(contentType: string, text: string, raw: seq<bv8>, hash: string, url: string)
    ensures var o := HttpxOutcome(contentType, text, raw, hash, url);
            && (o.Failure? <==> HttpxOutcome(contentType, Visible(text), raw, hash, url).Failure?)
            && (!IsBinary(contentType) && |text| < 200 ==> o.Failure? && o.error.errorType == EmptyShell)
            && (o.Success? ==> o.result.rawBytes == Some(raw))
  {
    VisibleIsFixedPoint(text);
    VisibleIsSubsequence(text);
    SubsequenceIsShorter(Visible(text), text);
    hide Visible, IsBinary;
  }
}
