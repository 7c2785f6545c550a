/** What is written in a log file, and what of it a reader must return: the texts of the lines, in order. */
module LogText {
  import opened Collections
  import opened ByteLines
  import opened ReaderSpec

  /** Texts, each ended by a newline (10) or by a carriage return and a newline (13, 10). */
  function Written(texts: seq<bytes>, crs: seq<bool>): bytes
    requires |texts| == |crs|
  {
    if texts == [] then []
    else
      var n := |texts| - 1;
      Written(texts[..n], crs[..n]) + (texts[n] + if crs[n] then [13, 10] else [10])
  }

  /** A text that is read back: without a newline, and without a carriage return at its end unless one more follows. */
  predicate IsText(text: bytes, cr: bool) {
    && (forall i :: 0 <= i < |text| ==> text[i] != 10)
    && (text != [] && text[|text| - 1] == 13 ==> cr)
  }

  /** The file holds these texts, and then an unfinished line. */
  ghost predicate Holds(content: bytes, texts: seq<bytes>, crs: seq<bool>, rest: bytes) {
    && |texts| == |crs| && content == Written(texts, crs) + rest
    && (forall i :: 0 <= i < |texts| ==> IsText(texts[i], crs[i]))
    && forall i :: 0 <= i < |rest| ==> rest[i] != 10
  }

  /** The texts whose lines, with what ends them, are no longer than the limit. */
  function Fitting(texts: seq<bytes>, crs: seq<bool>, limit: nat): (fitting: seq<bytes>)
    requires |texts| == |crs|
    ensures |fitting| <= |texts|
  {
    if texts == [] then []
    else
      var n := |texts| - 1;
      Fitting(texts[..n], crs[..n], limit) + if |texts[n]| + (if crs[n] then 2 else 1) <= limit then [texts[n]] else []
  }

  lemma {:induction false} FittingAll(texts: seq<bytes>, crs: seq<bool>, limit: nat)
    requires |texts| == |crs| && forall i :: 0 <= i < |texts| ==> |texts[i]| + (if crs[i] then 2 else 1) <= limit
    ensures Fitting(texts, crs, limit) == texts
  {
    if texts != [] {
      var n := |texts| - 1;
      FittingAll(texts[..n], crs[..n], limit);
      assert texts == texts[..n] + [texts[n]];
    }
  }

  /** A text and what ends it, as a line. */
  function LineOfText(text: bytes, cr: bool): bytes {
    text + if cr then [13, 10] else [10]
  }

  lemma LineIsClean(text: bytes, cr: bool)
    requires IsText(text, cr)
    ensures IsLine(LineOfText(text, cr)) && Clean(LineOfText(text, cr)) == text
    ensures |LineOfText(text, cr)| == |text| + if cr then 2 else 1
  {
    var line := LineOfText(text, cr);
    var body := line[..|line| - 1];
    if cr {
      assert body == text + [13];
    } else {
      assert body == text;
    }
  }

  function LinesOfTexts(texts: seq<bytes>, crs: seq<bool>): seq<bytes>
    requires |texts| == |crs|
  {
    seq(|texts|, i requires 0 <= i < |texts| => LineOfText(texts[i], crs[i]))
  }

  lemma SplitTexts(texts: seq<bytes>, crs: seq<bool>, n: nat)
    requires |texts| == |crs| == n + 1
    ensures LinesOfTexts(texts, crs) == LinesOfTexts(texts[..n], crs[..n]) + [LineOfText(texts[n], crs[n])]
  {
  }

  lemma {:induction false} WrittenIsJoin(texts: seq<bytes>, crs: seq<bool>)
    requires |texts| == |crs|
    ensures Written(texts, crs) == Join(LinesOfTexts(texts, crs))
  {
    if texts != [] {
      var n := |texts| - 1;
      WrittenIsJoin(texts[..n], crs[..n]);
      SplitTexts(texts, crs, n);
      JoinSnoc(LinesOfTexts(texts[..n], crs[..n]), LineOfText(texts[n], crs[n]));
    }
  }

  /** What the reader makes of lines whose texts these are. */
  ghost predicate ReadAs(ls: seq<bytes>, texts: seq<bytes>, crs: seq<bool>, limit: nat) {
    && |texts| == |crs| && Emitted(ls, limit) == Fitting(texts, crs, limit)
    && Oversized(ls, limit) == |texts| - |Fitting(texts, crs, limit)|
  }

  lemma ReadOneMore(ls: seq<bytes>, texts: seq<bytes>, crs: seq<bool>, text: bytes, cr: bool, limit: nat)
    requires ReadAs(ls, texts, crs, limit) && IsText(text, cr)
    ensures ReadAs(ls + [LineOfText(text, cr)], texts + [text], crs + [cr], limit)
  {
    LineIsClean(text, cr);
    LastLine(ls, LineOfText(text, cr), limit);
    assert (texts + [text])[..|texts|] == texts && (crs + [cr])[..|crs|] == crs;
  }

  lemma {:induction false} TextsAreReadAs(texts: seq<bytes>, crs: seq<bool>, limit: nat)
    requires |texts| == |crs| && forall i :: 0 <= i < |texts| ==> IsText(texts[i], crs[i])
    ensures ReadAs(LinesOfTexts(texts, crs), texts, crs, limit)
  {
    if texts != [] {
      var n := |texts| - 1;
      TextsAreReadAs(texts[..n], crs[..n], limit);
      SplitTexts(texts, crs, n);
      ReadOneMore(LinesOfTexts(texts[..n], crs[..n]), texts[..n], crs[..n], texts[n], crs[n], limit);
      assert texts[..n] + [texts[n]] == texts && crs[..n] + [crs[n]] == crs;
    }
  }

  lemma LastLine(ls: seq<bytes>, line: bytes, limit: nat)
    requires line != []
    ensures Emitted(ls + [line], limit) == Emitted(ls, limit) + if |line| <= limit then [Clean(line)] else []
    ensures Oversized(ls + [line], limit) == Oversized(ls, limit) + if |line| > limit then 1 else 0
  {
    assert (ls + [line])[..|ls|] == ls;
  }

  /** What is returned of a file is what is written in it: exactly the texts that fit, and the others are counted. */
  lemma TextsAreRead(content: bytes, texts: seq<bytes>, crs: seq<bool>, rest: bytes, limit: nat)
    requires Holds(content, texts, crs, rest)
    ensures Emitted(Lines(content), limit) == Fitting(texts, crs, limit)
    ensures Discards(content, limit) == |texts| - |Fitting(texts, crs, limit)| + if |rest| > limit then 1 else 0
  {
    var ls := LinesOfTexts(texts, crs);
    forall i | 0 <= i < |texts| ensures IsLine(ls[i]) {
      LineIsClean(texts[i], crs[i]);
    }
    WrittenIsJoin(texts, crs);
    LinesUnique(ls, rest);
    TextsAreReadAs(texts, crs, limit);
  }

  lemma AllTextsAreRead(content: bytes, limit: nat)
    ensures forall texts, crs, rest {:trigger Holds(content, texts, crs, rest)} ::
      Holds(content, texts, crs, rest) ==>
        && Emitted(Lines(content), limit) == Fitting(texts, crs, limit)
        && Discards(content, limit) == |texts| - |Fitting(texts, crs, limit)| + (if |rest| > limit then 1 else 0)
        && ((forall i :: 0 <= i < |texts| ==> |texts[i]| + (if crs[i] then 2 else 1) <= limit) ==>
              Fitting(texts, crs, limit) == texts)
  {
    forall texts, crs, rest | Holds(content, texts, crs, rest)
      ensures Emitted(Lines(content), limit) == Fitting(texts, crs, limit)
      ensures Discards(content, limit) == |texts| - |Fitting(texts, crs, limit)| + (if |rest| > limit then 1 else 0)
      ensures (forall i :: 0 <= i < |texts| ==> |texts[i]| + (if crs[i] then 2 else 1) <= limit) ==>
                Fitting(texts, crs, limit) == texts
    {
      TextsAreRead(content, texts, crs, rest, limit);
      if forall i :: 0 <= i < |texts| ==> |texts[i]| + (if crs[i] then 2 else 1) <= limit {
        FittingAll(texts, crs, limit);
      }
    }
  }

  lemma TextOfLine(line: bytes) returns (text: bytes, cr: bool)
    requires IsLine(line)
    ensures IsText(text, cr) && line == LineOfText(text, cr)
  {
    var body := line[..|line| - 1];
    cr := body != [] && body[|body| - 1] == CR;
    text := if cr then body[..|body| - 1] else body;
  }

  lemma {:induction false} TextsOfLines(ls: seq<bytes>) returns (texts: seq<bytes>, crs: seq<bool>)
    requires AreLines(ls)
    ensures |texts| == |crs| == |ls| && forall i :: 0 <= i < |texts| ==> IsText(texts[i], crs[i])
    ensures LinesOfTexts(texts, crs) == ls
  {
    texts, crs := [], [];
    if ls != [] {
      var n := |ls| - 1;
      texts, crs := TextsOfLines(ls[..n]);
      var text, cr := TextOfLine(ls[n]);
      texts, crs := texts + [text], crs + [cr];
      SplitTexts(texts, crs, n);
      assert texts[..n] == texts[..|texts| - 1] && crs[..n] == crs[..|crs| - 1];
    }
  }

  /** Every file holds some texts. */
  lemma EveryFileHoldsTexts(content: bytes) returns (texts: seq<bytes>, crs: seq<bool>, rest: bytes)
    ensures Holds(content, texts, crs, rest)
  {
    LinesAndTail(content);
    rest := Tail(content);
    texts, crs := TextsOfLines(Lines(content));
    WrittenIsJoin(texts, crs);
  }
}
