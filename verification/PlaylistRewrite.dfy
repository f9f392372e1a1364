/** What re-parsing a rewritten playlist gives, and when a second rewrite changes nothing. */
module PlaylistRewrite {
  import opened Common
  import opened Playlist
  import opened PlaylistFacts

  // ---- What the reader keeps ----

  ghost predicate GoodDoc(doc: Doc)
  {
    && |doc.segs| <= SEGMENTS_MAX && (forall i :: 0 <= i < |doc.segs| ==> GoodSeg(doc.segs[i]))
    && HeadLines(doc.header) && GoodTrailer(doc.trailer)
    && (Numbered(doc.header) ==> doc.media == MediaOf(doc.header, 0) && doc.disc == DiscOf(doc.header, 0))
  }

  /** A line with its newline; only the last of a text may lack it. */
  predicate Closed(line: string)
  {
    line != [] && line[|line| - 1] == '\n'
  }

  predicate GoodPart(p: Part)
  {
    && SegText(p.text) && p.text != [] && StartsWithTag(p.text)
    && p.discontinuity == HasDisc(p.text) && p.gap == HasGap(p.text)
  }

  ghost predicate GoodState(st: State)
  {
    st.Reading? ==>
      && GoodDoc(st.doc) && st.doc.trailer == [] && Complete(st.doc.header)
      && (st.heading ==> st.part.None? && st.doc.segs == [])
      && (st.part.Some? ==> GoodPart(st.part.value) && |st.doc.segs| < SEGMENTS_MAX)
  }

  lemma {:induction false} SegTextAppend(text: string, line: string)
    requires SegText(text) && SegLine(line)
    ensures SegText(text + line) && HasDisc(text + line) == (HasDisc(text) || Tag(Strip(line), DISCONTINUITY))
    ensures HasGap(text + line) == (HasGap(text) || IsGapLine(Strip(line)))
    ensures text != [] && StartsWithTag(text) ==> StartsWithTag(text + line)
    decreases |text|
  {
    hide Tag, Strip, LineLen, IsGapLine;
    if text == [] {
      assert text + line == line;
      WholeLine(line);
    } else {
      var n := LineLen(text);
      SegTextSplits(text);
      ConcatAssociative(text[..n], text[n..], line);
      LineLenOf(text[..n], text[n..] + line);
      SegTextAppend(text[n..], line);
    }
  }

  lemma SegTextSplits(text: string)
    requires SegText(text) && text != []
    ensures var n := LineLen(text);
            OneLine(text[..n]) && SegLine(text[..n]) && SegText(text[n..]) && text == text[..n] + text[n..]
  {
    hide SegText, SegLine, LineLen, OneLine;
    SegTextHead(text);
    SegLineIsLine(text[..LineLen(text)]);
  }

  lemma SegTextHead(text: string)
    requires SegText(text) && text != []
    ensures SegLine(text[..LineLen(text)]) && SegText(text[LineLen(text)..])
  {
    hide SegLine, LineLen;
  }

  lemma SegLineIsLine(line: string)
    requires SegLine(line)
    ensures OneLine(line)
  {
  }

  lemma WholeLine(line: string)
    requires OneLine(line)
    ensures LineLen(line) == |line| && line[..|line|] == line && line[|line|..] == []
  {
    LineLenOf(line, []);
    assert line + [] == line;
  }

  /** A header grows by a line. */
  lemma {:induction false} HeaderAppend(h: string, line: string, v: nat, w: nat)
    requires Complete(h) && line != [] && LineLen(line) == |line|
    ensures HeadLines(h + line) <==> HeadLines(h) && HeaderLine(Strip(line))
    ensures Numbered(h + line) <==> Numbered(h) && NumberedLine(line)
    ensures MediaOf(h + line, v) == MediaStep(line, MediaOf(h, v))
    ensures DiscOf(h + line, w) == DiscStep(line, DiscOf(h, w))
    decreases |h|
  {
    hide HeaderLine, Strip, LineLen, NumberedLine, MediaStep, DiscStep;
    if h == [] {
      assert h + line == line && line[..|line|] == line && line[|line|..] == [];
    } else {
      var n := LineLen(h);
      SplitLine(h);
      ConcatAssociative(h[..n], h[n..], line);
      LineLenOf(h[..n], h[n..] + line);
      HeaderAppend(h[n..], line, MediaStep(h[..n], v), DiscStep(h[..n], w));
    }
  }

  /** One line keeps the reader's state good, unless it is cut short by the end of the text. */
  lemma StepGood(st: State, line: string, ahead: string)
    requires GoodState(st) && st.Reading? && line != [] && LineLen(line) == |line|
    requires Closed(line) || ahead == []
    ensures var t := Step(st, line, ahead);
            && (t.Reading? || t.Ended? ==> GoodDoc(t.doc))
            && (Closed(line) ==> GoodState(t))
  {
    hide Step, GoodState, GoodDoc, Tag, HeaderLine, Strip, LineLen;
    var t := Strip(line);
    if Tag(t, MASTER) {
      MasterStep(st, line, ahead);
    } else if st.heading && HeaderLine(t) {
      HeadStepGood(st, line, ahead);
    } else if Tag(t, ENDLIST) {
      EndStepGood(st, line, ahead);
    } else if t != [] && t[0] != '#' {
      UriGood(line);
      UriStepGood(st, line, ahead);
    } else if Closed(line) {
      TagStepGood(st, line, ahead);
    } else {
      CutShort(st, line, ahead);
    }
  }

  lemma MasterStep(st: State, line: string, ahead: string)
    requires st.Reading? && Tag(Strip(line), MASTER)
    ensures Step(st, line, ahead) == Declined && GoodState(Declined)
  {
  }

  /** A tag line that the end of the text cuts short leaves what was read as it was. */
  lemma CutShort(st: State, line: string, ahead: string)
    requires GoodState(st) && st.Reading?
    requires var t := Strip(line);
             !Tag(t, MASTER) && !Tag(t, ENDLIST) && !(st.heading && HeaderLine(t)) && (t == [] || t[0] == '#')
    ensures var t := Step(st, line, ahead); t.Reading? || t.Ended? ==> GoodDoc(t.doc)
  {
    hide Tag, HeaderLine, Strip, GoodDoc;
  }

  lemma HeadFrame(doc: Doc, line: string, ahead: string)
    ensures var d := Head(doc, line, ahead);
            d.header == doc.header + line && d.segs == doc.segs && d.trailer == doc.trailer
  {
    hide Tag, Strip, Strtoull, From;
  }

  lemma HeadDocGood(doc: Doc, line: string, ahead: string)
    requires GoodDoc(doc) && Complete(doc.header) && line != [] && LineLen(line) == |line|
    requires Closed(line) || ahead == []
    requires HeaderLine(Strip(line))
    ensures GoodDoc(Head(doc, line, ahead))
  {
    hide Head, HeaderLine, Strip, LineLen, HeadLines, Numbered, GoodSeg, GoodTrailer, MediaStep, DiscStep, MediaOf, DiscOf, NumberedLine;
    HeaderAppend(doc.header, line, 0, 0);
    HeadFrame(doc, line, ahead);
    if NumberedLine(line) {
      HeadIs(line, ahead, doc);
    }
  }

  lemma CompleteAppend(h: string, line: string)
    requires Closed(line)
    ensures Complete(h + line)
  {
  }

  lemma HeadStepGood(st: State, line: string, ahead: string)
    requires GoodState(st) && st.Reading? && st.heading && line != [] && LineLen(line) == |line|
    requires Closed(line) || ahead == []
    requires HeaderLine(Strip(line))
    ensures var t := Step(st, line, ahead);
            t.Reading? && GoodDoc(t.doc) && (Closed(line) ==> GoodState(t))
  {
    hide Step, Head, HeaderLine, Strip, LineLen, GoodDoc, Complete, Closed, GoodPart;
    StepIsHead(line, ahead, st.doc);
    HeadDocGood(st.doc, line, ahead);
    HeadFrame(st.doc, line, ahead);
    if Closed(line) {
      CompleteAppend(st.doc.header, line);
    }
  }

  lemma EndStep(st: State, line: string, ahead: string)
    requires st.Reading? && !(st.heading && HeaderLine(Strip(line))) && Tag(Strip(line), ENDLIST)
    ensures Step(st, line, ahead) == Ended(st.doc.(trailer := line + ahead))
  {
    hide Tag, HeaderLine, Strip, InSegment, Head;
    EndTagLine(Strip(line));
  }

  lemma EndStepGood(st: State, line: string, ahead: string)
    requires GoodState(st) && st.Reading? && !(st.heading && HeaderLine(Strip(line)))
    requires Tag(Strip(line), ENDLIST) && line != [] && LineLen(line) == |line|
    requires Closed(line) || ahead == []
    ensures var t := Step(st, line, ahead); t.Ended? && GoodDoc(t.doc) && GoodState(t)
  {
    hide Step, Tag, HeaderLine, Strip, LineLen, GoodDoc, Closed, Complete, GoodPart;
    EndStep(st, line, ahead);
    TrailerGood(line, ahead);
    EndDocGood(st.doc, line + ahead);
  }

  lemma EndDocGood(doc: Doc, trailer: string)
    requires GoodDoc(doc) && GoodTrailer(trailer)
    ensures GoodDoc(doc.(trailer := trailer))
  {
    hide GoodTrailer, GoodSeg, HeadLines, Numbered, MediaOf, DiscOf;
  }

  lemma ClosedLine(line: string)
    requires line != [] && LineLen(line) == |line| && Closed(line)
    ensures OneLine(line)
  {
    hide LineLen;
    LineLenIsFirst(line);
  }

  lemma EndTagLine(t: string)
    requires Tag(t, ENDLIST)
    ensures !Tag(t, MASTER)
  {
    EndTag(t);
  }

  lemma TrailerGood(line: string, ahead: string)
    requires Tag(Strip(line), ENDLIST) && line != [] && LineLen(line) == |line|
    requires Closed(line) || ahead == []
    ensures GoodTrailer(line + ahead)
  {
    hide Tag, Strip, LineLen, Closed, GoodTrailer;
    if ahead == [] {
      LastLine(line, ahead);
    } else {
      ClosedLine(line);
      TrailerLine(line, ahead);
    }
  }

  lemma LastLine(line: string, ahead: string)
    requires ahead == [] && line != [] && LineLen(line) == |line| && Tag(Strip(line), ENDLIST)
    ensures GoodTrailer(line + ahead)
  {
    hide Tag, Strip, LineLen;
    assert line + ahead == line;
  }

  lemma TrailerLine(line: string, ahead: string)
    requires OneLine(line) && Tag(Strip(line), ENDLIST)
    ensures GoodTrailer(line + ahead)
  {
    hide Tag, Strip, LineLen, OneLine;
    LineLenOf(line, ahead);
  }

  lemma UriGood(line: string)
    requires line != [] && LineLen(line) == |line| && Strip(line) != [] && Strip(line)[0] != '#'
    ensures GoodUri(Strip(line))
  {
    hide LineLen, Strip, Ending;
    LineLenIsFirst(line);
    StripLeaves(line);
    PlainUri(line, Strip(line));
  }

  lemma PlainUri(line: string, t: string)
    requires t <= line && t != [] && !Ending(t[|t| - 1]) && forall k :: 0 <= k < |line| - 1 ==> line[k] != '\n'
    ensures forall k :: 0 <= k < |t| ==> t[k] != '\n'
  {
    forall k | 0 <= k < |t| ensures t[k] != '\n' {
      assert t[k] == line[k];
    }
  }

  lemma UriStepGood(st: State, line: string, ahead: string)
    requires GoodState(st) && st.Reading? && GoodUri(Strip(line))
    requires !(st.heading && HeaderLine(Strip(line)))
    ensures var t := Step(st, line, ahead); GoodState(t) && (t.Reading? ==> GoodDoc(t.doc)) && !t.Ended?
  {
    hide Tag, HeaderTag, Strip, HeadLines, Numbered, SegText, HasDisc, HasGap;
    UriIsNoTag(Strip(line));
    NoText();
  }

  lemma NoText()
    ensures SegText([]) && !HasDisc([]) && !HasGap([])
  {
  }

  /** Where a tag line leads: nowhere when it is blank between segments, else one line further into a segment. */
  lemma TagStep(st: State, line: string, ahead: string)
    requires st.Reading?
    requires var t := Strip(line);
             !Tag(t, MASTER) && !Tag(t, ENDLIST) && !(st.heading && st.part.None? && HeaderLine(t)) && (t == [] || t[0] == '#')
    ensures Step(st, line, ahead) ==
            if st.part.Some? then Reading(st.doc, false, Some(OneMore(st.part.value, line)))
            else if Strip(line) == [] then st.(heading := false)
            else if |st.doc.segs| == SEGMENTS_MAX then Full
            else Reading(st.doc, false, Some(OneMore(Part([], false, false), line)))
  {
    hide Tag, HeaderLine, Strip, Head;
  }

  lemma TagStepGood(st: State, line: string, ahead: string)
    requires GoodState(st) && st.Reading? && line != [] && LineLen(line) == |line| && Closed(line)
    requires var t := Strip(line);
             !Tag(t, MASTER) && !Tag(t, ENDLIST) && !(st.heading && HeaderLine(t)) && (t == [] || t[0] == '#')
    ensures var t := Step(st, line, ahead); GoodState(t) && (t.Reading? ==> GoodDoc(t.doc)) && !t.Ended?
  {
    hide Step, Tag, HeaderLine, Strip, LineLen, GoodDoc, Complete, Closed, GoodPart, OneMore;
    TagStep(st, line, ahead);
    ClosedLine(line);
    if st.part.Some? {
      PartGrows(st.part.value, line);
    } else if Strip(line) != [] && |st.doc.segs| < SEGMENTS_MAX {
      PartStarts(line);
    } else if Strip(line) != [] {
      FewSegs(st.doc);
    }
  }

  lemma FewSegs(doc: Doc)
    requires GoodDoc(doc)
    ensures |doc.segs| <= SEGMENTS_MAX
  {
    hide GoodSeg, GoodTrailer, HeadLines, Numbered, MediaOf, DiscOf;
  }

  lemma PartGrows(p: Part, line: string)
    requires GoodPart(p) && SegLine(line)
    ensures GoodPart(OneMore(p, line))
  {
    hide Tag, Strip, IsGapLine, SegText, SegLine, StartsWithTag, HasDisc, HasGap;
    SegTextAppend(p.text, line);
  }

  lemma PartStarts(line: string)
    requires SegLine(line) && Strip(line) != []
    ensures GoodPart(OneMore(Part([], false, false), line))
  {
    hide Tag, Strip, LineLen;
    NoText();
    SegTextAppend([], line);
    assert [] + line == line;
    WholeLine(line);
  }

  /** Whatever the text, what is read is made of well-formed segments, header lines and an end list. */
  lemma {:induction false} ReadGood(s: string, st: State)
    requires GoodState(st) && (st.Ended? ==> GoodDoc(st.doc))
    ensures var t := Read(s, st); t.Reading? || t.Ended? ==> GoodDoc(t.doc)
    decreases |s|
  {
    hide GoodDoc, Step;
    if s != [] && st.Reading? {
      var n := LineLen(s);
      FirstLine(s);
      StepGood(st, s[..n], s[n..]);
      if s[n - 1] == '\n' {
        ReadGood(s[n..], Step(st, s[..n], s[n..]));
      } else {
        assert s[n..] == [];
      }
    }
  }

  lemma FirstLine(s: string)
    requires s != []
    ensures var n := LineLen(s); LineLen(s[..n]) == n && (s[n - 1] == '\n' || n == |s|)
  {
    hide LineLen;
    LineLenIsFirst(s);
    var n := LineLen(s);
    if s[n - 1] == '\n' {
      WholeLine(s[..n]);
    } else {
      assert s[..n] == s;
    }
  }

  lemma ParseGood(s: string)
    requires Parse(s).Media?
    ensures GoodDoc(Parse(s).doc)
  {
    ReadGood(s, START);
  }
}
