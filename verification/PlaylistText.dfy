/** A media playlist written out line by line: how it is read, and what the rewrite makes of it. */
module PlaylistText {
  import opened Common
  import opened Playlist
  import opened PlaylistFacts
  import opened PlaylistRewrite
  import opened PlaylistTheorems

  // ---- Names of tags ----

  /** What stands before the first colon or carriage return. */
  function NameOf(t: string): (name: string)
    ensures name <= t
    ensures |name| == |t| || t[|name|] == ':' || t[|name|] == '\r'
    ensures forall i :: 0 <= i < |name| ==> name[i] != ':' && name[i] != '\r'
  {
    if t == "" || t[0] == ':' || t[0] == '\r' then "" else [t[0]] + NameOf(t[1..])
  }

  lemma NameIs(t: string, name: string)
    requires name <= t && (|name| == |t| || t[|name|] == ':' || t[|name|] == '\r')
    requires forall i :: 0 <= i < |name| ==> name[i] != ':' && name[i] != '\r'
    ensures NameOf(t) == name
  {
    var n := NameOf(t);
    assert forall i :: 0 <= i < |name| ==> t[i] == name[i];
    assert forall i :: 0 <= i < |n| ==> t[i] == n[i];
  }

  /** A line carries a tag exactly when the tag is its name. */
  lemma TagIsName(t: string, tag: string)
    requires forall i :: 0 <= i < |tag| ==> tag[i] != ':' && tag[i] != '\r'
    ensures Tag(t, tag) <==> NameOf(t) == tag
  {
    if Tag(t, tag) {
      assert tag == t[..|tag|];
      NameIs(t, tag);
    }
  }

  predicate HeaderName(name: string)
  {
    || name == "#EXTM3U" || name == "#EXT-X-VERSION" || name == "#EXT-X-TARGETDURATION"
    || name == "#EXT-X-MEDIA-SEQUENCE" || name == "#EXT-X-DISCONTINUITY-SEQUENCE"
    || name == "#EXT-X-PLAYLIST-TYPE" || name == "#EXT-X-INDEPENDENT-SEGMENTS" || name == "#EXT-X-START"
    || name == "#EXT-X-ALLOW-CACHE" || name == "#EXT-X-I-FRAMES-ONLY"
    || name == "#EXT-X-SERVER-CONTROL" || name == "#EXT-X-PART-INF"
  }

  lemma HeaderNameAt(name: string)
    ensures HeaderName(name) <==> exists i :: 0 <= i < |HEADER| && name == HEADER[i]
  {
    assert HEADER[0] == "#EXTM3U" && HEADER[1] == "#EXT-X-VERSION" && HEADER[2] == "#EXT-X-TARGETDURATION";
    assert HEADER[3] == "#EXT-X-MEDIA-SEQUENCE" && HEADER[4] == "#EXT-X-DISCONTINUITY-SEQUENCE";
    assert HEADER[5] == "#EXT-X-PLAYLIST-TYPE" && HEADER[6] == "#EXT-X-INDEPENDENT-SEGMENTS";
    assert HEADER[7] == "#EXT-X-START" && HEADER[8] == "#EXT-X-ALLOW-CACHE" && HEADER[9] == "#EXT-X-I-FRAMES-ONLY";
    assert HEADER[10] == "#EXT-X-SERVER-CONTROL" && HEADER[11] == "#EXT-X-PART-INF" && |HEADER| == 12;
  }

  lemma FirstTagsPlain(i: nat)
    requires i < 6
    ensures forall k :: 0 <= k < |HEADER[i]| ==> HEADER[i][k] != ':' && HEADER[i][k] != '\r'
  {
  }

  lemma LastTagsPlain(i: nat)
    requires 6 <= i < |HEADER|
    ensures forall k :: 0 <= k < |HEADER[i]| ==> HEADER[i][k] != ':' && HEADER[i][k] != '\r'
  {
  }

  /** The twelve tags that belong to a header. */
  lemma HeaderTagMeans(t: string)
    ensures HeaderTag(t) <==> HeaderName(NameOf(t))
  {
    hide Tag, NameOf, HeaderName;
    HeaderNameAt(NameOf(t));
    forall i | 0 <= i < |HEADER| ensures Tag(t, HEADER[i]) <==> NameOf(t) == HEADER[i] {
      if i < 6 {
        FirstTagsPlain(i);
      } else {
        LastTagsPlain(i);
      }
      TagIsName(t, HEADER[i]);
    }
  }

  /** The other tags the rewrite knows. */
  lemma TagsMean(t: string)
    ensures Tag(t, MEDIA) <==> NameOf(t) == "#EXT-X-MEDIA-SEQUENCE"
    ensures Tag(t, DISC) <==> NameOf(t) == "#EXT-X-DISCONTINUITY-SEQUENCE"
    ensures Tag(t, MASTER) <==> NameOf(t) == "#EXT-X-STREAM-INF"
    ensures Tag(t, ENDLIST) <==> NameOf(t) == "#EXT-X-ENDLIST"
    ensures Tag(t, DISCONTINUITY) <==> NameOf(t) == "#EXT-X-DISCONTINUITY"
    ensures Tag(t, GAP) <==> NameOf(t) == "#EXT-X-GAP"
  {
    hide Tag, NameOf;
    TagIsName(t, MEDIA);
    TagIsName(t, DISC);
    TagIsName(t, MASTER);
    TagIsName(t, ENDLIST);
    TagIsName(t, DISCONTINUITY);
    TagIsName(t, GAP);
  }

  // ---- A playlist, line by line ----

  /** A segment: its tag lines and its URI. */
  datatype Entry = Entry(tags: seq<string>, uri: string)

  function Lines(ts: seq<string>): string
  {
    if ts == [] then "" else (ts[0] + "\n") + Lines(ts[1..])
  }

  function EntriesText(entries: seq<Entry>): string
  {
    if entries == [] then "" else (Lines(entries[0].tags) + (entries[0].uri + "\n")) + EntriesText(entries[1..])
  }

  function EndText(end: Option<string>): string
  {
    match end
    case Some(rest) => "#EXT-X-ENDLIST\n" + rest
    case None => ""
  }

  /** A line that ends in neither kind of line ending. */
  predicate Bare(t: string)
  {
    (forall i :: 0 <= i < |t| ==> t[i] != '\n') && (t != "" ==> t[|t| - 1] != '\r')
  }

  predicate TagLine(t: string)
  {
    Bare(t) && t != "" && t[0] == '#' && NameOf(t) != "#EXT-X-STREAM-INF" && NameOf(t) != "#EXT-X-ENDLIST"
  }

  predicate ProperEntry(e: Entry)
  {
    (forall i :: 0 <= i < |e.tags| ==> TagLine(e.tags[i])) && Bare(e.uri) && e.uri != "" && e.uri[0] != '#'
  }

  predicate HeaderRow(t: string)
  {
    Bare(t) && (t == "" || HeaderName(NameOf(t)))
  }

  /** Every line of that name carries the number n; without one it is 0. */
  ghost predicate Says(header: seq<string>, name: string, n: nat)
  {
    && (forall i :: 0 <= i < |header| && NameOf(header[i]) == name ==> header[i] == name + (":" + Decimal(n)))
    && (n == 0 || exists i :: 0 <= i < |header| && NameOf(header[i]) == name)
  }

  ghost predicate Proper(header: seq<string>, entries: seq<Entry>, media: nat, disc: nat)
  {
    && header != [] && NameOf(header[0]) == "#EXTM3U"
    && (forall i :: 0 <= i < |header| ==> HeaderRow(header[i]))
    && |entries| <= 256 && (forall i :: 0 <= i < |entries| ==> ProperEntry(entries[i]))
    && (entries != [] && entries[0].tags != [] ==> !HeaderName(NameOf(entries[0].tags[0])))
    && media < TWO64 && Says(header, "#EXT-X-MEDIA-SEQUENCE", media)
    && disc < TWO64 && Says(header, "#EXT-X-DISCONTINUITY-SEQUENCE", disc)
  }

  predicate Named(tags: seq<string>, name: string)
  {
    exists i :: 0 <= i < |tags| && NameOf(tags[i]) == name
  }

  function SegOf(e: Entry): Seg
  {
    Seg(Lines(e.tags), e.uri, Named(e.tags, "#EXT-X-DISCONTINUITY"), Named(e.tags, "#EXT-X-GAP"))
  }

  function SegsOf(entries: seq<Entry>): (segs: seq<Seg>)
    ensures |segs| == |entries| && forall i :: 0 <= i < |entries| ==> segs[i] == SegOf(entries[i])
  {
    seq(|entries|, i requires 0 <= i < |entries| => SegOf(entries[i]))
  }

  // ---- Lines are lines ----

  lemma BareLine(t: string)
    requires Bare(t)
    ensures OneLine(t + "\n") && Strip(t + "\n") == t
  {
    var line := t + "\n";
    assert line[..|t|] == t;
    StripUnique(line, t);
  }

  /** The first of some lines. */
  lemma FirstOf(ts: seq<string>)
    requires ts != [] && Bare(ts[0])
    ensures var n, s := LineLen(Lines(ts)), Lines(ts);
            s != [] && s[..n] == ts[0] + "\n" && s[n..] == Lines(ts[1..]) && Strip(s[..n]) == ts[0] && OneLine(s[..n])
  {
    hide LineLen, Strip;
    BareLine(ts[0]);
    LineLenOf(ts[0] + "\n", Lines(ts[1..]));
  }

  lemma {:induction false} LinesEnd(ts: seq<string>)
    ensures Complete(Lines(ts))
  {
    if ts != [] {
      LinesEnd(ts[1..]);
    }
  }

  lemma {:induction false} LinesConcat(a: seq<string>, b: seq<string>)
    ensures Lines(a + b) == Lines(a) + Lines(b)
  {
    if a == [] {
      assert a + b == b;
    } else {
      assert (a + b)[1..] == a[1..] + b;
      LinesConcat(a[1..], b);
      ConcatAssociative(a[0] + "\n", Lines(a[1..]), Lines(b));
    }
  }

  lemma NamedHead(tags: seq<string>, name: string)
    requires tags != []
    ensures Named(tags, name) <==> NameOf(tags[0]) == name || Named(tags[1..], name)
  {
    hide NameOf;
    if Named(tags, name) {
      var i :| 0 <= i < |tags| && NameOf(tags[i]) == name;
      assert i > 0 ==> tags[1..][i - 1] == tags[i];
    }
    if Named(tags[1..], name) {
      var i :| 0 <= i < |tags[1..]| && NameOf(tags[1..][i]) == name;
      assert tags[i + 1] == tags[1..][i];
    }
  }

  lemma TagLineIs(t: string)
    requires TagLine(t)
    ensures SegLine(t + "\n")
    ensures Tag(t, DISCONTINUITY) <==> NameOf(t) == "#EXT-X-DISCONTINUITY"
    ensures IsGapLine(t) <==> NameOf(t) == "#EXT-X-GAP"
  {
    hide Tag, NameOf, Strip;
    BareLine(t);
    TagsMean(t);
    GapIsNotDisc();
  }

  lemma GapIsNotDisc()
    ensures "#EXT-X-GAP" != "#EXT-X-DISCONTINUITY"
  {
    assert "#EXT-X-GAP"[7] == 'G' && "#EXT-X-DISCONTINUITY"[7] == 'D';
  }

  lemma {:induction false} TagsAreText(tags: seq<string>)
    requires forall i :: 0 <= i < |tags| ==> TagLine(tags[i])
    ensures SegText(Lines(tags))
    ensures HasDisc(Lines(tags)) <==> Named(tags, "#EXT-X-DISCONTINUITY")
    ensures HasGap(Lines(tags)) <==> Named(tags, "#EXT-X-GAP")
    ensures Lines(tags) != [] <==> tags != []
    decreases |tags|
  {
    if tags != [] {
      FirstOf(tags);
      TagLineIs(tags[0]);
      NamedHead(tags, "#EXT-X-DISCONTINUITY");
      NamedHead(tags, "#EXT-X-GAP");
      TagsAreText(tags[1..]);
      hide Tag, NameOf, Strip, LineLen, Named, SegLine, IsGapLine;
      var s := Lines(tags);
      assert s != [];
    }
  }

  lemma TextStarts(tags: seq<string>)
    requires forall i :: 0 <= i < |tags| ==> TagLine(tags[i])
    ensures StartsWithTag(Lines(tags))
    ensures StartsWithHeaderTag(Lines(tags)) <==> tags != [] && HeaderName(NameOf(tags[0]))
  {
    if tags != [] {
      hide Tag, NameOf, Strip, LineLen, HeaderName, HeaderTag;
      assert TagLine(tags[0]);
      FirstOf(tags);
      HeaderTagMeans(tags[0]);
    }
  }

  lemma EntryIsGood(e: Entry)
    requires ProperEntry(e)
    ensures GoodSeg(SegOf(e))
  {
    hide TagLine, Lines, Named, SegText, StartsWithTag, HasDisc, HasGap;
    TagsAreText(e.tags);
    TextStarts(e.tags);
  }

  // ---- The header ----

  lemma SaysHere(t: string, name: string, n: nat)
    requires (name == MEDIA || name == DISC) && t == name + (":" + Decimal(n)) && n < TWO64
    ensures NameOf(t) == name
    ensures Tag(t + "\n", name)
    ensures NumberLine(name, n) == t + "\n"
    ensures (name == MEDIA && Strtoull(From(t + "\n", 22)) == n) || (name == DISC && Strtoull(From(t + "\n", 30)) == n)
    ensures |t| > |name| + 1 && t[|name|] == ':' && IsDigit(t[|name| + 1])
  {
    hide Strtoull, From;
    NameIs(t, name);
    NumberReads(name, n);
    assert NumberLine(name, n) == t + "\n";
    assert (t + "\n")[|name|] == ':' && (t + "\n")[|name| + 1] == t[|name| + 1];
  }

  /** A header line whose sequence tag, if it is one, says the number. */
  ghost predicate RowSays(t: string, media: nat, disc: nat)
  {
    && (NameOf(t) == "#EXT-X-MEDIA-SEQUENCE" ==> t == "#EXT-X-MEDIA-SEQUENCE" + (":" + Decimal(media)))
    && (NameOf(t) == "#EXT-X-DISCONTINUITY-SEQUENCE" ==> t == "#EXT-X-DISCONTINUITY-SEQUENCE" + (":" + Decimal(disc)))
  }

  lemma RowIs(t: string, media: nat, disc: nat)
    requires HeaderRow(t) && RowSays(t, media, disc) && media < TWO64 && disc < TWO64
    ensures var line := t + "\n";
            && HeaderLine(Strip(line)) && NumberedLine(line)
            && (forall v :: MediaStep(line, v) == if NameOf(t) == "#EXT-X-MEDIA-SEQUENCE" then media else v)
            && (forall v :: DiscStep(line, v) == if NameOf(t) == "#EXT-X-DISCONTINUITY-SEQUENCE" then disc else v)
            && (Tag(line, MEDIA) <==> NameOf(t) == "#EXT-X-MEDIA-SEQUENCE")
            && (Tag(line, DISC) <==> NameOf(t) == "#EXT-X-DISCONTINUITY-SEQUENCE")
  {
    hide Strtoull, From, Tag, NameOf, Strip, HeaderTag, HeaderName, Decimal;
    BareLine(t);
    TagsMean(t);
    if t != "" {
      HeaderTagMeans(t);
    }
    LineName(t, MEDIA);
    LineName(t, DISC);
    if NameOf(t) == MEDIA {
      SaysHere(t, MEDIA, media);
    }
    if NameOf(t) == DISC {
      SaysHere(t, DISC, disc);
    }
  }

  /** The newline can only hide a name, not make one. */
  lemma LineName(t: string, tag: string)
    requires tag == MEDIA || tag == DISC
    ensures Tag(t + "\n", tag) ==> NameOf(t) == tag
  {
    var line := t + "\n";
    if Tag(line, tag) {
      assert |tag| <= |t| by {
        assert tag[|tag| - 1] != '\n' && line[|tag| - 1] == tag[|tag| - 1];
      }
      assert tag == t[..|tag|];
      NameIs(t, tag);
    }
  }

  lemma SaysTail(header: seq<string>, name: string, n: nat)
    requires header != []
    requires forall i :: 0 <= i < |header| && NameOf(header[i]) == name ==> header[i] == name + (":" + Decimal(n))
    ensures var rest := header[1..];
            forall i :: 0 <= i < |rest| && NameOf(rest[i]) == name ==> rest[i] == name + (":" + Decimal(n))
  {
    var rest := header[1..];
    forall i | 0 <= i < |rest| && NameOf(rest[i]) == name ensures rest[i] == name + (":" + Decimal(n)) {
      assert rest[i] == header[i + 1];
    }
  }

  ghost predicate Rows(header: seq<string>, media: nat, disc: nat)
  {
    forall i :: 0 <= i < |header| ==> HeaderRow(header[i]) && RowSays(header[i], media, disc)
  }

  /** Lines of a header are a header, and set the numbers they say. */
  lemma {:induction false} RowsAreHeader(header: seq<string>, media: nat, disc: nat, v: nat, w: nat)
    requires Rows(header, media, disc) && media < TWO64 && disc < TWO64
    ensures HeadLines(Lines(header)) && Numbered(Lines(header))
    ensures MediaOf(Lines(header), v) == if Named(header, "#EXT-X-MEDIA-SEQUENCE") then media else v
    ensures DiscOf(Lines(header), w) == if Named(header, "#EXT-X-DISCONTINUITY-SEQUENCE") then disc else w
    decreases |header|
  {
    hide Tag, NameOf, Strip, LineLen, HeaderLine, NumberedLine, MediaStep, DiscStep, HeaderRow, RowSays, Named;
    if header == [] {
      NoneNamed("#EXT-X-MEDIA-SEQUENCE");
      NoneNamed("#EXT-X-DISCONTINUITY-SEQUENCE");
    } else {
      var t := header[0];
      RowBare(t);
      FirstOf(header);
      RowIs(t, media, disc);
      NamedHead(header, "#EXT-X-MEDIA-SEQUENCE");
      NamedHead(header, "#EXT-X-DISCONTINUITY-SEQUENCE");
      var line := t + "\n";
      RowsAreHeader(header[1..], media, disc, MediaStep(line, v), DiscStep(line, w));
    }
  }

  lemma NoneNamed(name: string)
    ensures !Named([], name)
  {
  }

  lemma RowBare(t: string)
    requires HeaderRow(t)
    ensures Bare(t)
  {
  }

  /** The header lines that are written again. */
  function RowsKept(header: seq<string>, media: bool, disc: bool): seq<string>
  {
    if header == [] then []
    else
      var dropped := (media && NameOf(header[0]) == "#EXT-X-MEDIA-SEQUENCE")
                     || (disc && NameOf(header[0]) == "#EXT-X-DISCONTINUITY-SEQUENCE");
      (if dropped then [] else [header[0]]) + RowsKept(header[1..], media, disc)
  }

  lemma {:induction false} RowsWritten(header: seq<string>, m: bool, d: bool, media: nat, disc: nat)
    requires Rows(header, media, disc) && media < TWO64 && disc < TWO64
    ensures HeaderOut(Lines(header), m, d) == Lines(RowsKept(header, m, d))
    decreases |header|
  {
    if header != [] {
      hide Tag, NameOf, Strip, LineLen, HeaderLine, NumberedLine, MediaStep, DiscStep, HeaderRow, RowSays, HeaderTag;
      var t := header[0];
      RowBare(t);
      FirstOf(header);
      RowIs(t, media, disc);
      RowsWritten(header[1..], m, d, media, disc);
      var rest := RowsKept(header[1..], m, d);
      assert Terminated(t + "\n") == t + "\n";
      assert ([t] + rest)[1..] == rest;
      assert [] + rest == rest && [] + Lines(rest) == Lines(rest);
    }
  }

  // ---- The whole text ----

  function Text(header: seq<string>, entries: seq<Entry>, end: Option<string>): string
  {
    Lines(header) + (EntriesText(entries) + EndText(end))
  }

  function DocOf(header: seq<string>, entries: seq<Entry>, end: Option<string>, media: nat, disc: nat): Doc
  {
    Doc(Lines(header), SegsOf(entries), EndText(end), media, disc)
  }

  lemma EndIsGood(end: Option<string>)
    ensures GoodTrailer(EndText(end))
  {
    if end.Some? {
      assert "#EXT-X-ENDLIST" + "\n" == "#EXT-X-ENDLIST\n";
      BareLine("#EXT-X-ENDLIST");
      LineLenOf("#EXT-X-ENDLIST\n", end.value);
      NameIs("#EXT-X-ENDLIST", "#EXT-X-ENDLIST");
      hide NameOf, Tag, Strip, LineLen;
      TagsMean("#EXT-X-ENDLIST");
    }
  }

  const ALL := Opts(0, [], [])

  /** Written segments are what the rewrite writes when it changes nothing. */
  lemma {:induction false} EntriesOut(entries: seq<Entry>)
    ensures SegsOut(SegsOf(entries), ALL) == EntriesText(entries)
  {
    if entries != [] {
      EntriesOut(entries[1..]);
      assert SegsOf(entries)[1..] == SegsOf(entries[1..]);
      var e := entries[0];
      assert [] + (e.uri + "\n") == e.uri + "\n";
    }
  }

  lemma AllStay(segs: seq<Seg>)
    ensures Marks(segs, ALL) == segs
  {
    forall i | 0 <= i < |segs| ensures Marks(segs, ALL)[i] == segs[i] {
      assert !Marked(segs[i], ALL);
    }
  }

  lemma RowsOf(header: seq<string>, entries: seq<Entry>, media: nat, disc: nat)
    requires Proper(header, entries, media, disc)
    ensures Rows(header, media, disc)
    ensures M3U <= Lines(header)
    ensures Named(header, "#EXT-X-MEDIA-SEQUENCE") || media == 0
    ensures Named(header, "#EXT-X-DISCONTINUITY-SEQUENCE") || disc == 0
  {
    hide HeaderRow, Decimal, HeaderName, ProperEntry;
    var name := NameOf(header[0]);
    assert name <= header[0];
  }

  lemma SegsAreGood(entries: seq<Entry>)
    requires forall i :: 0 <= i < |entries| ==> ProperEntry(entries[i])
    ensures forall i :: 0 <= i < |entries| ==> GoodSeg(SegsOf(entries)[i])
    ensures entries != [] ==>
              (StartsWithHeaderTag(SegsOf(entries)[0].text)
               <==> entries[0].tags != [] && HeaderName(NameOf(entries[0].tags[0])))
  {
    forall i | 0 <= i < |entries| ensures GoodSeg(SegsOf(entries)[i]) {
      EntryIsGood(entries[i]);
    }
    if entries != [] {
      assert ProperEntry(entries[0]);
      TextStarts(entries[0].tags);
    }
  }

  /** The written playlist is what the theorems about the rewrite are made for. */
  lemma DocIsGood(header: seq<string>, entries: seq<Entry>, end: Option<string>, media: nat, disc: nat)
    requires Proper(header, entries, media, disc)
    ensures var doc := DocOf(header, entries, end, media, disc);
            GoodDoc(doc) && GoodHeader(doc) && Complete(doc.header)
  {
    hide GoodSeg, HeadLines, Numbered, GoodTrailer, Named, Rows, EndText, MediaOf, DiscOf;
    RowsOf(header, entries, media, disc);
    RowsAreHeader(header, media, disc, 0, 0);
    SegsAreGood(entries);
    EndIsGood(end);
    LinesEnd(header);
  }

  /** The header and the segments are read, whatever follows them. */
  lemma LinesRead(header: seq<string>, entries: seq<Entry>, media: nat, disc: nat, b: string)
    requires Proper(header, entries, media, disc)
    ensures var text := Lines(header) + (EntriesText(entries) + b);
            && M3U <= text
            && Read(text, START) == Read(b, Reading(Doc(Lines(header), SegsOf(entries), [], media, disc), entries == [], None))
  {
    hide GoodSeg, HeadLines, Numbered, MediaOf, DiscOf, Read, SegsOut, EntriesText, StartsWithHeaderTag,
      Marks, NameOf, HeaderName, ProperEntry, HeaderRow, Says, Complete, Named, Rows;
    var segs := SegsOf(entries);
    RowsOf(header, entries, media, disc);
    RowsAreHeader(header, media, disc, 0, 0);
    LinesEnd(header);
    SegsAreGood(entries);
    EntriesOut(entries);
    ReadHeader(Lines(header), EntriesText(entries) + b, NO_DOC);
    var headed := Headed(NO_DOC, Lines(header));
    assert [] + Lines(header) == Lines(header);
    ReadSegsOut(segs, ALL, b, headed, true);
    AllStay(segs);
    assert [] + segs == segs;
    assert headed.(segs := headed.segs + Marks(segs, ALL)) == Doc(Lines(header), segs, [], media, disc);
    StartsM3U(Lines(header), EntriesText(entries) + b);
  }

  /**
   * Any playlist written out of these lines - a header of the twelve tags and
   * blank lines, at most 256 segments of tag lines and a URI, an end list or
   * none - is read as exactly that.
   */
  lemma TextReads(header: seq<string>, entries: seq<Entry>, end: Option<string>, media: nat, disc: nat)
    requires Proper(header, entries, media, disc)
    ensures Parse(Text(header, entries, end)) == Media(DocOf(header, entries, end, media, disc))
  {
    hide Proper, Lines, EntriesText, GoodTrailer, EndText, Read, SegsOf;
    LinesRead(header, entries, media, disc, EndText(end));
    EndIsGood(end);
    ReadTrailer(EndText(end), Doc(Lines(header), SegsOf(entries), [], media, disc), entries == []);
  }

  /** A playlist in which a line begins a 257th segment is refused as too long. */
  lemma TooManySegments(header: seq<string>, entries: seq<Entry>, media: nat, disc: nat, line: string, rest: string)
    requires Proper(header, entries, media, disc) && |entries| == 256
    requires Bare(line) && line != "" && (line[0] == '#' ==> TagLine(line))
    ensures Parse(Lines(header) + (EntriesText(entries) + ((line + "\n") + rest))) == TooMany
  {
    hide Proper, Lines, EntriesText, SegsOf, NameOf, Tag, Strip;
    var doc := Doc(Lines(header), SegsOf(entries), [], media, disc);
    LinesRead(header, entries, media, disc, (line + "\n") + rest);
    SameMany(entries);
    BareLine(line);
    TagsMean(line);
    UriOrTag(line);
    ReadLine(line + "\n", rest, Reading(doc, false, None));
  }

  lemma UriOrTag(line: string)
    requires line != "" && (line[0] == '#' ==> TagLine(line))
    ensures !Tag(line, MASTER) && !Tag(line, ENDLIST)
  {
    hide Tag, NameOf;
    TagsMean(line);
    if line[0] != '#' {
      UriIsNoTag(line);
    }
  }

  /** A playlist with a line that only a multivariant playlist has is not one to rewrite. */
  lemma MasterDeclined(header: seq<string>, entries: seq<Entry>, media: nat, disc: nat, line: string, rest: string)
    requires Proper(header, entries, media, disc) && Bare(line) && NameOf(line) == "#EXT-X-STREAM-INF"
    ensures Parse(Lines(header) + (EntriesText(entries) + ((line + "\n") + rest))) == NotMedia
  {
    hide Proper, Lines, EntriesText, SegsOf, NameOf, Tag, Strip;
    var doc := Doc(Lines(header), SegsOf(entries), [], media, disc);
    LinesRead(header, entries, media, disc, (line + "\n") + rest);
    BareLine(line);
    TagsMean(line);
    ReadLine(line + "\n", rest, Reading(doc, entries == [], None));
  }

  /** So is a text that does not begin with the playlist tag. */
  lemma OtherTextDeclined(s: string)
    requires !("#EXTM3U" <= s)
    ensures Parse(s) == NotMedia
  {
  }

  lemma StartsM3U(h: string, b: string)
    requires M3U <= h
    ensures M3U <= h + b
  {
  }

  // ---- What the rewrite makes of it ----

  /** A segment as it is written for a destination: one gap tag if it is missing there and not marked yet. */
  function EntryOut(e: Entry, missing: seq<string>): Entry
  {
    if e.uri in missing && !Named(e.tags, "#EXT-X-GAP") then Entry(e.tags + ["#EXT-X-GAP"], e.uri) else e
  }

  function EntriesOutFor(entries: seq<Entry>, missing: seq<string>): (out: seq<Entry>)
    ensures |out| == |entries| && forall i :: 0 <= i < |entries| ==> out[i] == EntryOut(entries[i], missing)
  {
    seq(|entries|, i requires 0 <= i < |entries| => EntryOut(entries[i], missing))
  }

  lemma EntryWritten(e: Entry, opts: Opts)
    ensures SegOut(SegOf(e), opts) == Lines(EntryOut(e, opts.missing).tags) + (e.uri + "\n")
  {
    hide Named, Lines;
    var line := e.uri + "\n";
    if Marked(SegOf(e), opts) {
      LinesConcat(e.tags, ["#EXT-X-GAP"]);
      OneOf("#EXT-X-GAP");
      ConcatAssociative(Lines(e.tags), "#EXT-X-GAP" + "\n", line);
    } else {
      assert [] + line == line;
    }
  }

  lemma OneOf(t: string)
    ensures Lines([t]) == t + "\n"
  {
    assert [t][1..] == [] && (t + "\n") + "" == t + "\n";
  }

  lemma {:induction false} EntriesWritten(entries: seq<Entry>, opts: Opts)
    ensures SegsOut(SegsOf(entries), opts) == EntriesText(EntriesOutFor(entries, opts.missing))
  {
    hide SegOut, SegOf, EntryOut, Lines;
    if entries != [] {
      EntriesWritten(entries[1..], opts);
      assert SegsOf(entries)[1..] == SegsOf(entries[1..]);
      assert EntriesOutFor(entries, opts.missing)[1..] == EntriesOutFor(entries[1..], opts.missing);
      EntryWritten(entries[0], opts);
      UriStays(entries[0], opts.missing);
    }
  }

  lemma UriStays(e: Entry, missing: seq<string>)
    ensures EntryOut(e, missing).uri == e.uri
  {
  }

  function NumberRow(name: string, moved: bool, n: nat): seq<string>
  {
    if moved then [name + (":" + Decimal(n))] else []
  }

  lemma NumberWritten(name: string, moved: bool, n: nat)
    ensures Lines(NumberRow(name, moved, n)) == if moved then NumberLine(name, n) else ""
  {
    if moved {
      OneOf(name + (":" + Decimal(n)));
      assert name + (":" + (Decimal(n) + "\n")) == (name + (":" + Decimal(n))) + "\n";
    }
  }

  /** How many of the first n segments begin a discontinuity. */
  ghost function Breaks(entries: seq<Entry>, n: nat): nat
    requires n <= |entries|
  {
    |BreaksAt(entries, n)|
  }

  ghost function BreaksAt(entries: seq<Entry>, n: nat): set<int>
    requires n <= |entries|
  {
    set i | 0 <= i < n && Named(entries[i].tags, "#EXT-X-DISCONTINUITY")
  }

  lemma {:induction false} BreaksCounted(entries: seq<Entry>, n: nat)
    requires n <= |entries|
    ensures Discontinuities(SegsOf(entries)[..n]) == Breaks(entries, n)
  {
    hide Named, Discontinuities, Lines, SegOf, SegsOf, BreaksAt;
    NoBreaks();
    SegsAre(entries, n);
    if n == 0 {
      BreaksStart(entries);
    } else {
      BreaksCounted(entries, n - 1);
      DiscontinuitiesConcat(SegsOf(entries)[..n - 1], [SegOf(entries[n - 1])]);
      OneBreak(entries[n - 1]);
      BreaksNext(entries, n);
    }
  }

  lemma SegsAre(entries: seq<Entry>, n: nat)
    requires n <= |entries|
    ensures |SegsOf(entries)| == |entries| && SegsOf(entries)[..0] == []
    ensures n > 0 ==> SegsOf(entries)[..n] == SegsOf(entries)[..n - 1] + [SegOf(entries[n - 1])]
  {
    hide SegOf;
  }

  lemma BreaksStart(entries: seq<Entry>)
    ensures BreaksAt(entries, 0) == {}
  {
  }

  lemma BreaksNext(entries: seq<Entry>, n: nat)
    requires 0 < n <= |entries|
    ensures Breaks(entries, n) == Breaks(entries, n - 1) + if Named(entries[n - 1].tags, "#EXT-X-DISCONTINUITY") then 1 else 0
  {
    hide Named;
    var last := if Named(entries[n - 1].tags, "#EXT-X-DISCONTINUITY") then {n - 1} else {};
    assert BreaksAt(entries, n) == BreaksAt(entries, n - 1) + last;
  }

  lemma NoBreaks()
    ensures Discontinuities([]) == 0
  {
  }

  lemma OneBreak(e: Entry)
    ensures Discontinuities([SegOf(e)]) == if Named(e.tags, "#EXT-X-DISCONTINUITY") then 1 else 0
  {
    hide Named, Lines;
    assert [SegOf(e)][1..] == [];
  }

  /** The segment of that URI comes first among the entries at place i. */
  predicate FirstWith(entries: seq<Entry>, uri: string, i: nat)
  {
    i < |entries| && entries[i].uri == uri && forall k :: 0 <= k < i ==> entries[k].uri != uri
  }

  /**
   * Which segments leave from the front: as few as leave no more than the
   * window holds and none before the first one the destination has.
   */
  lemma FrontLeaves(entries: seq<Entry>, opts: Opts)
    ensures var n := First(SegsOf(entries), opts);
            && n <= |entries|
            && (opts.window > 0 ==> |entries| - n <= opts.window)
            && (opts.first != "" ==> forall i: nat :: FirstWith(entries, opts.first, i) ==> i <= n)
            && (n > 0 ==> (opts.window > 0 && |entries| - n == opts.window)
                          || (opts.first != "" && FirstWith(entries, opts.first, n)))
  {
    var segs := SegsOf(entries);
    var at := IndexOf(segs, opts.first);
    assert at < |segs| ==> entries[at].uri == opts.first;
    forall k | 0 <= k < at ensures entries[k].uri != opts.first {
      assert segs[k].uri == entries[k].uri;
    }
  }

  /**
   * The rewritten text, line by line: the header lines as they were, but for
   * a sequence tag whose number moves, that tag with its new number behind
   * them, and the segments that stay with a gap tag for each that is missing.
   */
  lemma TextRewritten(header: seq<string>, entries: seq<Entry>, end: Option<string>, media: nat, disc: nat, opts: Opts)
    requires Proper(header, entries, media, disc)
    ensures var n := First(SegsOf(entries), opts);
            && n <= |entries|
            && var breaks := Breaks(entries, n);
               Render(DocOf(header, entries, end, media, disc), opts)
               == Text(RowsKept(header, n > 0, breaks > 0)
                       + NumberRow("#EXT-X-MEDIA-SEQUENCE", n > 0, (media + n) % TWO64)
                       + NumberRow("#EXT-X-DISCONTINUITY-SEQUENCE", breaks > 0, (disc + breaks) % TWO64),
                       EntriesOutFor(entries[n..], opts.missing), end)
  {
    hide Lines, EntriesText, EndText, SegsOut, HeaderOut, First, Discontinuities, Rows, Breaks, NumberLine, SegOf,
      NumberRow, RowsKept, EntryOut, Proper, Render, Text, SegsOf, EntriesOutFor;
    var n := First(SegsOf(entries), opts);
    SameMany(entries);
    var breaks := Breaks(entries, n);
    BreaksCounted(entries, n);
    RowsOf(header, entries, media, disc);
    ProperNumbers(header, entries, media, disc);
    RowsWritten(header, n > 0, breaks > 0, media, disc);
    NumbersWritten(RowsKept(header, n > 0, breaks > 0), n > 0, breaks > 0, (media + n) % TWO64, (disc + breaks) % TWO64);
    EntriesWritten(entries[n..], opts);
    SegsFrom(entries, n);
    Rendered(DocOf(header, entries, end, media, disc), opts, n, breaks);
    TextIs(RowsKept(header, n > 0, breaks > 0)
           + NumberRow("#EXT-X-MEDIA-SEQUENCE", n > 0, (media + n) % TWO64)
           + NumberRow("#EXT-X-DISCONTINUITY-SEQUENCE", breaks > 0, (disc + breaks) % TWO64),
           EntriesOutFor(entries[n..], opts.missing), end);
  }

  lemma SameMany(entries: seq<Entry>)
    ensures |SegsOf(entries)| == |entries|
  {
  }

  lemma SegsFrom(entries: seq<Entry>, n: nat)
    requires n <= |entries|
    ensures SegsOf(entries[n..]) == SegsOf(entries)[n..]
  {
  }

  lemma ProperNumbers(header: seq<string>, entries: seq<Entry>, media: nat, disc: nat)
    requires Proper(header, entries, media, disc)
    ensures media < TWO64 && disc < TWO64
  {
  }

  lemma TextIs(header: seq<string>, entries: seq<Entry>, end: Option<string>)
    ensures Text(header, entries, end) == Lines(header) + (EntriesText(entries) + EndText(end))
  {
  }

  lemma Rendered(doc: Doc, opts: Opts, n: nat, removed: nat)
    requires n == First(doc.segs, opts) && removed == Discontinuities(doc.segs[..n])
    ensures Render(doc, opts) == (HeaderOut(doc.header, n > 0, removed > 0)
                                  + ((if n > 0 then NumberLine(MEDIA, (doc.media + n) % TWO64) else [])
                                     + (if removed > 0 then NumberLine(DISC, (doc.disc + removed) % TWO64) else [])))
                                 + (SegsOut(doc.segs[n..], opts) + doc.trailer)
  {
    hide HeaderOut, SegsOut, NumberLine, First, Discontinuities;
  }

  lemma NumbersWritten(rows: seq<string>, m: bool, d: bool, media: nat, disc: nat)
    ensures Lines(rows + NumberRow("#EXT-X-MEDIA-SEQUENCE", m, media) + NumberRow("#EXT-X-DISCONTINUITY-SEQUENCE", d, disc))
         == Lines(rows) + ((if m then NumberLine(MEDIA, media) else []) + (if d then NumberLine(DISC, disc) else []))
  {
    hide Lines, NumberLine, NumberRow;
    var one, two := NumberRow("#EXT-X-MEDIA-SEQUENCE", m, media), NumberRow("#EXT-X-DISCONTINUITY-SEQUENCE", d, disc);
    NumberWritten("#EXT-X-MEDIA-SEQUENCE", m, media);
    NumberWritten("#EXT-X-DISCONTINUITY-SEQUENCE", d, disc);
    LinesConcat(rows, one);
    LinesConcat(rows + one, two);
    ConcatAssociative(Lines(rows), Lines(one), Lines(two));
  }

  // ---- The numbers that are read ----

  function Zeros(n: nat): (z: string)
    ensures |z| == n && forall i :: 0 <= i < n ==> z[i] == '0'
  {
    seq(n, _ => '0')
  }

  lemma {:induction false} ZerosRead(z: nat, rest: string)
    ensures Digits(Zeros(z) + rest, 0) == Digits(rest, 0)
  {
    if z > 0 {
      assert (Zeros(z) + rest)[1..] == Zeros(z - 1) + rest;
      ZerosRead(z - 1, rest);
    } else {
      assert Zeros(z) + rest == rest;
    }
  }

  /** A number, its zeros and what follows it. */
  lemma NumberIsRead(z: nat, n: nat, rest: string)
    requires rest != "" ==> !('0' <= rest[0] <= '9')
    ensures Digits(Zeros(z) + (Decimal(n) + rest), 0) == n
    ensures var t := Zeros(z) + (Decimal(n) + rest); t != "" && '0' <= t[0] <= '9'
  {
    ZerosRead(z, Decimal(n) + rest);
    DigitsStop(Decimal(n), rest, 0);
    DecimalReads(n);
  }

  /**
   * strtoull, as far as the sequence tags use it: whitespace, a sign or none,
   * zeros and digits, up to the first other character; saturated at the
   * largest 64-bit value, and negated modulo 2^64 behind a minus sign.
   */
  lemma {:induction false} StrtoullReads(space: string, sign: string, z: nat, n: nat, rest: string)
    requires forall i :: 0 <= i < |space| ==> space[i] == ' ' || 9 <= space[i] as int <= 13
    requires sign == "" || sign == "+" || sign == "-"
    requires rest != "" ==> !('0' <= rest[0] <= '9')
    ensures Strtoull(space + (sign + (Zeros(z) + (Decimal(n) + rest))))
         == if n >= 0x1_0000_0000_0000_0000 then 0xFFFF_FFFF_FFFF_FFFF
            else if sign == "-" && n > 0 then 0x1_0000_0000_0000_0000 - n
            else n
    decreases |space|
  {
    hide Digits, Decimal, Zeros;
    var text := sign + (Zeros(z) + (Decimal(n) + rest));
    if space == "" {
      assert space + text == text;
      NumberIsRead(z, n, rest);
      SignReads(sign, Zeros(z) + (Decimal(n) + rest), n);
    } else {
      assert (space + text)[1..] == space[1..] + text;
      StrtoullReads(space[1..], sign, z, n, rest);
    }
  }

  lemma SignReads(sign: string, number: string, n: nat)
    requires sign == "" || sign == "+" || sign == "-"
    requires number != "" && '0' <= number[0] <= '9' && Digits(number, 0) == n
    ensures Strtoull(sign + number)
         == if n >= 0x1_0000_0000_0000_0000 then 0xFFFF_FFFF_FFFF_FFFF
            else if sign == "-" && n > 0 then 0x1_0000_0000_0000_0000 - n
            else n
  {
    hide Digits;
    var text := sign + number;
    if sign == "" {
      assert text == number;
    } else {
      assert text[0] == sign[0] && text[1..] == number;
    }
  }
}
