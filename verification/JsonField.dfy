/** The field lookup of the control API: the first member of that name, found without building the document. */
module JsonField {
  import opened Common
  import opened Json
  import opened Octets
  import opened JsonScan

  const KEY_MAX := 64

  predicate Space(b: byte)
  {
    b == 32 || b == 9 || b == 13 || b == 10
  }

  /** The whitespace of RFC 8259 section 2. */
  lemma SpaceMeans(b: byte)
    ensures Space(b) <==> b as char in " \t\r\n"
  {
  }

  /** What may stand before a member's name. */
  predicate Lead(b: byte)
  {
    Space(b) || b == 123 || b == COMMA
  }

  function SkipSpace(s: seq<byte>, p: nat): (q: nat)
    requires p <= |s|
    ensures p <= q <= |s| && (q < |s| ==> !Space(s[q])) && forall k :: p <= k < q ==> Space(s[k])
    decreases |s| - p
  {
    if p < |s| && Space(s[p]) then SkipSpace(s, p + 1) else p
  }

  function SkipLead(s: seq<byte>, p: nat): (q: nat)
    requires p <= |s|
    ensures p <= q <= |s| && (q < |s| ==> !Lead(s[q])) && forall k :: p <= k < q ==> Lead(s[k])
    decreases |s| - p
  {
    if p < |s| && Lead(s[p]) then SkipLead(s, p + 1) else p
  }

  /** The end of a bare value without the space before the octet that ended it. */
  function TrimEnd(s: seq<byte>, start: nat, end: nat): (e: nat)
    requires start <= end <= |s|
    ensures start <= e <= end && (e > start ==> !Space(s[e - 1])) && forall k :: e <= k < end ==> Space(s[k])
    decreases end
  {
    if end > start && Space(s[end - 1]) then TrimEnd(s, start, end - 1) else end
  }

  datatype Answer = Found(value: seq<byte>) | NotFound | Malformed

  /** The name of a member and the position of its value. */
  function NameAt(s: seq<byte>, p: nat): (r: Option<(seq<byte>, nat)>)
    requires p <= |s|
    ensures r.Some? ==> p < r.value.1 < |s|
  {
    var q := SkipLead(s, p);
    if q == |s| || s[q] != QUOTE then None
    else
      var k := Decode(s, q + 1);
      if k.None? || |k.value.value| > KEY_MAX then None
      else
        var colon := SkipSpace(s, k.value.next);
        if colon == |s| || s[colon] != 58 then None
        else
          var start := SkipSpace(s, colon + 1);
          if start == |s| then None else Some((k.value.value, start))
  }

  /** The value between start and end; without a pool to decode it into a string is not given. */
  function ValueOf(s: seq<byte>, start: nat, end: nat, pool: bool): Answer
    requires start < |s| && start <= end <= |s|
  {
    if s[start] == QUOTE then
      if !pool then NotFound
      else
        var v := Decode(s[..end], start + 1);
        if v.None? then Malformed else Found(v.value.value)
    else Found(s[start..TrimEnd(s, start, end)])
  }

  /** The lookup from p on. */
  function Field(s: seq<byte>, p: nat, key: seq<byte>, pool: bool): Answer
    requires p <= |s|
    decreases |s| - p
  {
    var name := NameAt(s, p);
    if name.None? then NotFound
    else
      var (k, start) := name.value;
      var end := ValueEndOf(s, start);
      if end.None? then Malformed
      else
        if k == key then ValueOf(s, start, end.value, pool) else Field(s, end.value, key, pool)
  }

  /** The whole lookup; a name the key buffer could not hold is never looked for. */
  function Lookup(s: seq<byte>, key: seq<byte>, pool: bool): Answer
  {
    if |key| >= KEY_MAX then NotFound else Field(s, 0, key, pool)
  }

  // ---- The loops ----

  method AfterSpace(s: seq<byte>, p: nat) returns (q: nat)
    requires p <= |s|
    ensures q == SkipSpace(s, p)
  {
    q := p;
    while q < |s| && Space(s[q])
      invariant p <= q <= |s| && SkipSpace(s, q) == SkipSpace(s, p)
    {
      q := q + 1;
    }
  }

  method AfterLead(s: seq<byte>, p: nat) returns (q: nat)
    requires p <= |s|
    ensures q == SkipLead(s, p)
  {
    q := p;
    while q < |s| && Lead(s[q])
      invariant p <= q <= |s| && SkipLead(s, q) == SkipLead(s, p)
    {
      q := q + 1;
    }
  }

  /** A name decoded into the fixed key buffer, and the position after its closing quote. */
  method ReadKey(src: array<byte>, p: nat) returns (key: Option<Json.Text>)
    requires p <= src.Length
    ensures var k := Decode(src[..], p);
            key == if k.None? || |k.value.value| > KEY_MAX then None else k
  {
    hide Decode;
    var buffer := new byte[KEY_MAX];
    assert src[..src.Length] == src[..];
    var ok, next, len := ParseString(src, p, src.Length, buffer, 0, KEY_MAX);
    key := if ok then Some(Json.Text(buffer[..len], next)) else None;
  }

  /** The member's name and the position of its value. */
  method ReadName(src: array<byte>, p: nat) returns (name: Option<(seq<byte>, nat)>)
    requires p <= src.Length
    ensures name == NameAt(src[..], p)
  {
    hide Decode, SkipSpace, SkipLead, Space, Lead;
    ghost var s := src[..];
    var q := AfterLead(src[..], p);
    if q == src.Length || src[q] != QUOTE {
      return None;
    }
    var k := ReadKey(src, q + 1);
    if k.None? {
      return None;
    }
    assert src[..] == s;
    var colon := AfterSpace(src[..], k.value.next);
    if colon == src.Length || src[colon] != 58 {
      return None;
    }
    var start := AfterSpace(src[..], colon + 1);
    if start == src.Length {
      return None;
    }
    return Some((k.value.value, start));
  }

  /** The value: a string decoded into a buffer of its raw length, which always suffices, or the raw text. */
  method ReadValue(src: array<byte>, start: nat, end: nat, pool: bool) returns (a: Answer)
    requires start < end <= src.Length && ValueEndOf(src[..], start) == Some(end)
    ensures a == ValueOf(src[..], start, end, pool)
  {
    if src[start] == QUOTE {
      if !pool {
        return NotFound;
      }
      StringIsClosed(src[..], start, end);
      var room := end - start - 2;
      var decoded := new byte[room];
      assert src[..][..end] == src[..end];
      var ok, next, len := ParseString(src, start + 1, end, decoded, 0, room);
      if Decode(src[..end], start + 1).Some? {
        DecodeShrinks(src[..end], start + 1);
      }
      return if ok then Found(decoded[..len]) else Malformed;
    }
    var e := end;
    while e > start && Space(src[e - 1])
      invariant start <= e <= end && TrimEnd(src[..], start, e) == TrimEnd(src[..], start, end)
    {
      e := e - 1;
    }
    return Found(src[start..e]);
  }

  /** The scanner leaves a string only behind a second quote. */
  lemma StringIsClosed(s: seq<byte>, start: nat, end: nat)
    requires start < |s| && s[start] == QUOTE && ValueEndOf(s, start) == Some(end)
    ensures start + 2 <= end
  {
    QuotedAdvances(s, start + 1);
  }

  lemma {:induction false} QuotedAdvances(s: seq<byte>, p: nat)
    requires p <= |s| && Scan(s, p, 0, true, Quoted).Some?
    ensures p < Scan(s, p, 0, true, Quoted).value
    decreases |s| - p
  {
    if p < |s| && s[p] == BACKSLASH && p + 1 < |s| {
      QuotedAdvances(s, p + 2);
    } else if p < |s| && s[p] != QUOTE && s[p] != BACKSLASH {
      QuotedAdvances(s, p + 1);
    }
  }

  /** The lookup over a body: member after member, values of other names skipped unread. */
  method Find(src: array<byte>, key: seq<byte>, pool: bool) returns (a: Answer)
    ensures a == Lookup(src[..], key, pool)
  {
    if |key| >= KEY_MAX {
      return NotFound;
    }
    hide NameAt, Scan, ValueOf, ValueEndOf;
    var p := 0;
    while true
      invariant p <= src.Length && Field(src[..], p, key, pool) == Field(src[..], 0, key, pool)
      decreases src.Length - p
    {
      var name := ReadName(src, p);
      if name.None? {
        return NotFound;
      }
      var (k, start) := name.value;
      var end := ValueEnd(src[..], start);
      if end.None? {
        return Malformed;
      }
      if k == key {
        if end.value == start {
          return Found([]);
        }
        a := ReadValue(src, start, end.value, pool);
        return;
      }
      p := end.value;
    }
  }

  // ---- Objects ----

  /** A string's raw text and what it stands for. */
  predicate MeansText(raw: seq<byte>, v: seq<byte>)
  {
    Decode(raw + [QUOTE], 0) == Some(Json.Text(v, |raw| + 1))
  }

  datatype Value = Str(raw: seq<byte>, v: seq<byte>) | Box(piece: Piece) | Bare(text: seq<byte>)

  predicate Ordinary(b: byte)
  {
    b != QUOTE && b != COMMA && !Opens(b) && !Closes(b)
  }

  predicate ProperValue(v: Value)
  {
    match v
    case Str(raw, t) => MeansText(raw, t)
    case Box(piece) => piece.Nested? && WellMade(piece)
    case Bare(text) => text != [] && forall i :: 0 <= i < |text| ==> Ordinary(text[i]) && !Space(text[i])
  }

  function ValueText(v: Value): seq<byte>
  {
    match v
    case Str(raw, _) => [QUOTE] + (raw + [QUOTE])
    case Box(piece) => PieceText(piece)
    case Bare(text) => text
  }

  /** What a lookup gives of a value. */
  function Content(v: Value): seq<byte>
  {
    match v
    case Str(_, t) => t
    case Box(piece) => PieceText(piece)
    case Bare(text) => text
  }

  /** What a lookup answers of it: without a pool, a string is not given. */
  function Given(v: Value, pool: bool): Answer
  {
    if v.Str? && !pool then NotFound else Found(Content(v))
  }

  /** A member: what stands before it, its name as written and as meant, the space around its colon, its value. */
  datatype Member = Member(lead: seq<byte>, raw: seq<byte>, key: seq<byte>, gap: seq<byte>, gap2: seq<byte>, value: Value)

  predicate Spaces(t: seq<byte>)
  {
    forall i :: 0 <= i < |t| ==> Space(t[i])
  }

  predicate Leads(t: seq<byte>)
  {
    forall i :: 0 <= i < |t| ==> Lead(t[i])
  }

  /** Space, and then a comma or a closing bracket: what ends a value. */
  predicate EndsValue(t: seq<byte>)
  {
    exists n :: 0 <= n < |t| && (t[n] == COMMA || Closes(t[n])) && forall k :: 0 <= k < n ==> Space(t[k])
  }

  predicate ProperMember(m: Member)
  {
    Leads(m.lead) && MeansText(m.raw, m.key) && Spaces(m.gap) && Spaces(m.gap2) && ProperValue(m.value)
  }

  function NameText(m: Member): seq<byte>
  {
    m.lead + ([QUOTE] + ((m.raw + [QUOTE]) + (m.gap + ([58] + m.gap2))))
  }

  function MembersText(ms: seq<Member>, tail: seq<byte>): seq<byte>
  {
    if ms == [] then tail else NameText(ms[0]) + (ValueText(ms[0].value) + MembersText(ms[1..], tail))
  }

  /** Every member is proper, each but the first is set off by a comma, and a closing bracket follows the last. */
  predicate ProperObject(ms: seq<Member>, tail: seq<byte>)
  {
    && (forall i :: 0 <= i < |ms| ==> ProperMember(ms[i]))
    && (forall i :: 0 < i < |ms| ==> EndsValue(ms[i].lead))
    && CloseFirst(tail)
  }

  /** Space, and then a closing bracket. */
  predicate CloseFirst(t: seq<byte>)
  {
    exists n :: 0 <= n < |t| && Closes(t[n]) && forall k :: 0 <= k < n ==> Space(t[k])
  }

  /** The value of the first member of that name; a name too long for the buffer ends the search. */
  function FirstMatch(ms: seq<Member>, key: seq<byte>, pool: bool): Answer
  {
    if ms == [] || |ms[0].key| > KEY_MAX then NotFound
    else if ms[0].key == key then Given(ms[0].value, pool)
    else FirstMatch(ms[1..], key, pool)
  }

  // ---- Decoding depends on the string alone ----

  /** Two texts agree over n octets. */
  predicate Agree(s: seq<byte>, p: nat, t: seq<byte>, q: nat, n: nat)
  {
    p + n <= |s| && q + n <= |t| && s[p..p + n] == t[q..q + n]
  }

  lemma AgreeAt(s: seq<byte>, p: nat, t: seq<byte>, q: nat, n: nat, k: nat)
    requires Agree(s, p, t, q, n) && k < n
    ensures p + k < |s| && q + k < |t| && s[p + k] == t[q + k]
  {
    assert s[p..p + n][k] == t[q..q + n][k];
  }

  lemma AgreeFrom(s: seq<byte>, p: nat, t: seq<byte>, q: nat, n: nat, d: nat, m: nat)
    requires Agree(s, p, t, q, n) && d + m <= n
    ensures Agree(s, p + d, t, q + d, m)
  {
    SubSlice(s, p, n, d, m);
    SubSlice(t, q, n, d, m);
  }

  lemma SubSlice(s: seq<byte>, p: nat, n: nat, d: nat, m: nat)
    requires p + n <= |s| && d + m <= n
    ensures s[p + d..(p + d) + m] == s[p..p + n][d..d + m]
  {
    var a, b := s[p + d..(p + d) + m], s[p..p + n][d..d + m];
    forall i | 0 <= i < m ensures a[i] == b[i] {
      assert a[i] == s[p + d + i];
    }
    assert |a| == |b| == m;
  }

  lemma {:induction false} HexLocal(s: seq<byte>, p: nat, t: seq<byte>, q: nat, n: nat)
    requires Agree(s, p, t, q, n)
    ensures HexNumber(s, p, n) == HexNumber(t, q, n)
  {
    if n > 0 {
      AgreeAt(s, p, t, q, n, n - 1);
      AgreeFrom(s, p, t, q, n, 0, n - 1);
      HexLocal(s, p, t, q, n - 1);
    }
  }

  lemma UnicodeLocal(s: seq<byte>, p: nat, t: seq<byte>, q: nat, n: nat)
    requires Agree(s, p, t, q, n) && p <= |s| && UnicodeAt(s, p).Some? && UnicodeAt(s, p).value.next <= p + n
    ensures q <= |t| && UnicodeAt(t, q) == Some(Decoded(UnicodeAt(s, p).value.code, UnicodeAt(s, p).value.next - p + q))
  {
    hide HexNumber, Agree;
    AgreeFrom(s, p, t, q, n, 0, 4);
    HexLocal(s, p, t, q, 4);
    if UnicodeAt(s, p).value.next == p + 10 {
      AgreeAt(s, p, t, q, n, 9);
      AgreeAt(s, p, t, q, n, 4);
      AgreeAt(s, p, t, q, n, 5);
      AgreeFrom(s, p, t, q, n, 6, 4);
      HexLocal(s, p + 6, t, q + 6, 4);
    } else {
      AgreeAt(s, p, t, q, n, 3);
    }
  }

  lemma UnitLocal(s: seq<byte>, p: nat, t: seq<byte>, q: nat, n: nat)
    requires Agree(s, p, t, q, n) && p < |s| && UnitAt(s, p).Some? && UnitAt(s, p).value.next <= p + n
    ensures q < |t| && UnitAt(t, q) == Some(Json.Text(UnitAt(s, p).value.value, UnitAt(s, p).value.next - p + q))
  {
    hide HexNumber, Utf8, Agree, UnicodeAt;
    AgreeAt(s, p, t, q, n, 0);
    if s[p] == BACKSLASH {
      AgreeAt(s, p, t, q, n, 1);
      if s[p + 1] == 117 {
        AgreeFrom(s, p, t, q, n, 2, n - 2);
        UnicodeLocal(s, p + 2, t, q + 2, n - 2);
      }
    }
  }

  lemma {:induction false} DecodeLocal(s: seq<byte>, p: nat, t: seq<byte>, q: nat, n: nat)
    requires Agree(s, p, t, q, n) && Decode(s, p).Some? && Decode(s, p).value.next == p + n
    ensures Decode(t, q) == Some(Json.Text(Decode(s, p).value.value, q + n))
    decreases n
  {
    hide UnitAt, Agree;
    AgreeAt(s, p, t, q, n, 0);
    if s[p] != QUOTE {
      var u := UnitAt(s, p).value;
      var d := u.next - p;
      UnitLocal(s, p, t, q, n);
      AgreeFrom(s, p, t, q, n, d, n - d);
      DecodeLocal(s, u.next, t, d + q, n - d);
    }
  }

  /** A string that stands in a text decodes there to what it means. */
  lemma MeaningStands(s: seq<byte>, p: nat, raw: seq<byte>, v: seq<byte>)
    requires MeansText(raw, v) && Stands(s, p, raw + [QUOTE])
    ensures Decode(s, p) == Some(Json.Text(v, p + |raw| + 1))
  {
    hide Decode;
    var t := raw + [QUOTE];
    assert t[0..0 + |t|] == t;
    DecodeLocal(t, 0, s, p, |t|);
  }

  // ---- One member ----

  lemma StandSpaces(s: seq<byte>, p: nat, gap: seq<byte>)
    requires Stands(s, p, gap) && Spaces(gap)
    ensures p + |gap| <= |s| && forall k :: p <= k < p + |gap| ==> Space(s[k])
  {
    StandsAt(s, p, gap);
    forall k | p <= k < p + |gap| ensures Space(s[k]) {
      assert s[p + (k - p)] == gap[k - p];
    }
  }

  lemma StandLeads(s: seq<byte>, p: nat, gap: seq<byte>)
    requires Stands(s, p, gap) && Leads(gap)
    ensures p + |gap| <= |s| && forall k :: p <= k < p + |gap| ==> Lead(s[k])
  {
    StandsAt(s, p, gap);
    forall k | p <= k < p + |gap| ensures Lead(s[k]) {
      assert s[p + (k - p)] == gap[k - p];
    }
  }

  lemma StandsOne(s: seq<byte>, p: nat, b: byte)
    requires Stands(s, p, [b])
    ensures p < |s| && s[p] == b
  {
    StandsAt(s, p, [b]);
    assert s[p + 0] == [b][0];
  }

  /** The name of a proper member is read, and its value found behind the colon. */
  lemma NameReads(s: seq<byte>, p: nat, m: Member)
    requires ProperMember(m) && Stands(s, p, NameText(m))
    requires var start := p + |NameText(m)|; start < |s| && !Space(s[start])
    ensures NameAt(s, p) == if |m.key| > KEY_MAX then None else Some((m.key, p + |NameText(m)|))
  {
    hide Stands, Decode, SkipSpace, SkipLead, MeansText, ProperValue, Spaces, Leads, Space, Lead;
    var q := p + |m.lead|;
    var after := q + 1 + |m.raw| + 1;
    var colon := after + |m.gap|;
    NameSplits(s, p, m);
    StandsOne(s, q, QUOTE);
    StandsOne(s, colon, 58);
    StandLeads(s, p, m.lead);
    StandSpaces(s, after, m.gap);
    StandSpaces(s, colon + 1, m.gap2);
    MeaningStands(s, q + 1, m.raw, m.key);
    Marks();
  }

  lemma Marks()
    ensures !Lead(QUOTE) && !Space(58)
  {
  }

  /** The pieces of a member's name stand one behind the other. */
  lemma NameSplits(s: seq<byte>, p: nat, m: Member)
    requires Stands(s, p, NameText(m))
    ensures var q := p + |m.lead|;
            var after := q + 1 + |m.raw| + 1;
            var colon := after + |m.gap|;
            && Stands(s, p, m.lead) && Stands(s, q, [QUOTE]) && Stands(s, q + 1, m.raw + [QUOTE])
            && Stands(s, after, m.gap) && Stands(s, colon, [58]) && Stands(s, colon + 1, m.gap2)
            && |NameText(m)| == colon + 1 + |m.gap2| - p
  {
    hide Stands;
    var q := p + |m.lead|;
    var after := q + 1 + |m.raw| + 1;
    StandsSplit(s, p, m.lead, [QUOTE] + ((m.raw + [QUOTE]) + (m.gap + ([58] + m.gap2))));
    StandsSplit(s, q, [QUOTE], (m.raw + [QUOTE]) + (m.gap + ([58] + m.gap2)));
    StandsSplit(s, q + 1, m.raw + [QUOTE], m.gap + ([58] + m.gap2));
    StandsSplit(s, after, m.gap, [58] + m.gap2);
    StandsSplit(s, after + |m.gap|, [58], m.gap2);
  }

  /** A bare value and the space behind it reach up to the comma or bracket. */
  lemma BareReads(s: seq<byte>, p: nat, text: seq<byte>, n: nat, pool: bool)
    requires ProperValue(Value.Bare(text)) && Stands(s, p, text) && p + |text| + n < |s|
    requires s[p + |text| + n] == COMMA || Closes(s[p + |text| + n])
    requires forall k :: p + |text| <= k < p + |text| + n ==> Space(s[k])
    ensures p < |s| && ValueEndOf(s, p) == Some(p + |text| + n)
    ensures ValueOf(s, p, p + |text| + n, pool) == Found(text)
  {
    var end := p + |text| + n;
    StandsAt(s, p, text);
    forall k | p <= k < end ensures Ordinary(s[k]) {
      if k < p + |text| {
        assert s[p + (k - p)] == text[k - p];
      }
    }
    assert s[p + 0] == text[0];
    assert s[p + (|text| - 1)] == text[|text| - 1];
    BareEnds(s, p, |text| + n);
    assert s[p..p + |text|] == text;
  }

  /** A string value is scanned to its closing quote and decoded. */
  lemma StrReads(s: seq<byte>, p: nat, raw: seq<byte>, v: seq<byte>, pool: bool)
    requires MeansText(raw, v) && Stands(s, p, ValueText(Str(raw, v)))
    ensures var end := p + |raw| + 2;
            p < |s| && end <= |s| && ValueEndOf(s, p) == Some(end) && ValueOf(s, p, end, pool) == (if pool then Found(v) else NotFound)
  {
    hide Stands, Decode, MeansText, ValueEndOf;
    StandsSplit(s, p, [QUOTE], raw + [QUOTE]);
    StandsOne(s, p, QUOTE);
    MeaningStands(s, p + 1, raw, v);
    RawLengthSuffices(s, p);
    var end := p + |raw| + 2;
    StandsWithin(s, p + 1, raw + [QUOTE], end);
    MeaningStands(s[..end], p + 1, raw, v);
  }

  lemma StandsWithin(s: seq<byte>, p: nat, w: seq<byte>, end: nat)
    requires Stands(s, p, w) && end == p + |w|
    ensures end <= |s| && Stands(s[..end], p, w)
  {
    assert s[..end][p..end] == s[p..end];
  }

  /** Whatever a member's value is, it is skipped exactly and gives its content. */
  lemma ValueReads(s: seq<byte>, p: nat, v: Value, rest: seq<byte>, pool: bool)
    requires ProperValue(v) && Stands(s, p, ValueText(v) + rest) && EndsValue(rest)
    ensures p < |s| && !Space(s[p]) && ValueEndOf(s, p).Some?
    ensures var end := ValueEndOf(s, p).value;
            && p + |ValueText(v)| <= end <= |s| && ValueOf(s, p, end, pool) == Given(v, pool)
            && (forall k :: p + |ValueText(v)| <= k < end ==> Space(s[k]))
            && end < p + |ValueText(v)| + |rest|
  {
    hide Stands, MeansText, WellMade, ValueEndOf, ValueOf, EndsValue, PieceText;
    var w := ValueText(v);
    EndsNotEmpty(rest);
    StandsSplit(s, p, w, rest);
    match v {
      case Str(raw, t) =>
        StrReads(s, p, raw, t, pool);
        StandsSplit(s, p, [QUOTE], raw + [QUOTE]);
        StandsOne(s, p, QUOTE);
      case Box(piece) =>
        BoxReads(s, p, piece, pool);
      case Bare(text) =>
        BareValueReads(s, p, text, rest, pool);
    }
  }

  lemma BareValueReads(s: seq<byte>, p: nat, text: seq<byte>, rest: seq<byte>, pool: bool)
    requires ProperValue(Value.Bare(text)) && Stands(s, p, text) && Stands(s, p + |text|, rest) && EndsValue(rest)
    ensures p < |s| && !Space(s[p]) && ValueEndOf(s, p).Some?
    ensures var end := ValueEndOf(s, p).value;
            && p + |text| <= end <= |s| && ValueOf(s, p, end, pool) == Found(text)
            && (forall k :: p + |text| <= k < end ==> Space(s[k])) && end < p + |text| + |rest|
  {
    hide Stands, ValueEndOf, ValueOf, Space, Closes;
    var n: nat :| n < |rest| && (rest[n] == COMMA || Closes(rest[n])) && forall k :: 0 <= k < n ==> Space(rest[k]);
    var at := p + |text|;
    StandsAt(s, at, rest);
    assert s[at + n] == rest[n];
    forall k | at <= k < at + n ensures Space(s[k]) {
      assert s[at + (k - at)] == rest[k - at];
    }
    StandsAt(s, p, text);
    assert s[p + 0] == text[0];
    BareReads(s, p, text, n, pool);
  }

  lemma EndsNotEmpty(rest: seq<byte>)
    requires EndsValue(rest)
    ensures rest != [] && !Space(QUOTE)
  {
  }

  lemma BoxReads(s: seq<byte>, p: nat, x: Piece, pool: bool)
    requires x.Nested? && WellMade(x) && Stands(s, p, PieceText(x))
    ensures var end := p + |PieceText(x)|;
            && p < end <= |s| && ValueEndOf(s, p) == Some(end) && ValueOf(s, p, end, pool) == Found(PieceText(x)) && !Space(s[p])
  {
    var end := p + |PieceText(x)|;
    NestedParts(s, p, x);
    ContainerEnds(s, p, x);
  }

  // ---- The theorem ----

  /** Space and commas in front of a name make no difference. */
  lemma FieldSkips(s: seq<byte>, p: nat, q: nat, key: seq<byte>, pool: bool)
    requires p <= q <= |s| && forall k :: p <= k < q ==> Lead(s[k])
    ensures Field(s, p, key, pool) == Field(s, q, key, pool)
  {
    hide Decode, SkipSpace, SkipLead, ValueEndOf, ValueOf;
    assert NameAt(s, p) == NameAt(s, q);
  }

  /** Behind the last member the search ends. */
  lemma TailEnds(s: seq<byte>, p: nat, tail: seq<byte>, key: seq<byte>, pool: bool)
    requires CloseFirst(tail) && Stands(s, p, tail)
    ensures p <= |s| && Field(s, p, key, pool) == NotFound
  {
    hide Decode, SkipSpace, ValueEndOf, ValueOf;
    var n :| 0 <= n < |tail| && Closes(tail[n]) && forall k :: 0 <= k < n ==> Space(tail[k]);
    StandsAt(s, p, tail);
    assert s[p + n] == tail[n];
    forall k | p <= k < p + n ensures Lead(s[k]) {
      assert s[p + (k - p)] == tail[k - p];
    }
  }

  lemma EndsMore(a: seq<byte>, b: seq<byte>)
    requires EndsValue(a)
    ensures EndsValue(a + b)
  {
    var n :| 0 <= n < |a| && (a[n] == COMMA || Closes(a[n])) && forall k :: 0 <= k < n ==> Space(a[k]);
    assert (a + b)[n] == a[n];
  }

  lemma RestEndsValue(ms: seq<Member>, tail: seq<byte>)
    requires ms != [] && ProperObject(ms, tail)
    ensures ProperObject(ms[1..], tail) && EndsValue(MembersText(ms[1..], tail))
  {
    hide ProperMember, EndsValue;
    var rest := ms[1..];
    forall i | 0 <= i < |rest| ensures ProperMember(rest[i]) && (i > 0 ==> EndsValue(rest[i].lead)) {
      assert rest[i] == ms[i + 1];
    }
    if rest == [] {
      CloseIsEnd(tail);
    } else {
      var m := rest[0];
      var more := [QUOTE] + ((m.raw + [QUOTE]) + (m.gap + ([58] + m.gap2)));
      assert m == ms[1];
      EndsMore(m.lead, more);
      EndsMore(NameText(m), ValueText(m.value) + MembersText(rest[1..], tail));
    }
  }

  lemma CloseIsEnd(tail: seq<byte>)
    requires CloseFirst(tail)
    ensures EndsValue(tail)
  {
  }

  /**
   * In an object with any members - any space, any escapes in its strings,
   * containers nested to any depth - the lookup gives the value of the first
   * member of that name, unless a name too long for the buffer comes first.
   */
  lemma {:induction false} FindsFirst(s: seq<byte>, p: nat, ms: seq<Member>, tail: seq<byte>, key: seq<byte>, pool: bool)
    requires ProperObject(ms, tail) && Stands(s, p, MembersText(ms, tail))
    ensures p <= |s| && Field(s, p, key, pool) == FirstMatch(ms, key, pool)
    decreases |ms|
  {
    hide Stands, NameAt, ValueEndOf, ValueOf, ProperMember, EndsValue, CloseFirst, NameText, ValueText, Given;
    if ms == [] {
      TailEnds(s, p, tail, key, pool);
    } else {
      var m := ms[0];
      var rest := MembersText(ms[1..], tail);
      RestEndsValue(ms, tail);
      MemberReads(s, p, m, rest, pool);
      if |m.key| <= KEY_MAX && m.key != key {
        var at := p + |NameText(m)| + |ValueText(m.value)|;
        var end := ValueEndOf(s, p + |NameText(m)|).value;
        FindsFirst(s, at, ms[1..], tail, key, pool);
        FieldSkips(s, at, end, key, pool);
      }
    }
  }

  /** One member: its name, its value, and where the next one stands. */
  predicate ReadsAs(s: seq<byte>, p: nat, m: Member, rest: seq<byte>, pool: bool)
  {
    var start := p + |NameText(m)|;
    var at := start + |ValueText(m.value)|;
    && p <= start < |s| && NameAt(s, p) == (if |m.key| > KEY_MAX then None else Some((m.key, start)))
    && ValueEndOf(s, start).Some? && start <= at <= ValueEndOf(s, start).value <= |s|
    && ValueOf(s, start, ValueEndOf(s, start).value, pool) == Given(m.value, pool)
    && Stands(s, at, rest)
    && forall k :: at <= k < ValueEndOf(s, start).value ==> Lead(s[k])
  }

  lemma MemberReads(s: seq<byte>, p: nat, m: Member, rest: seq<byte>, pool: bool)
    requires ProperMember(m) && EndsValue(rest) && Stands(s, p, NameText(m) + (ValueText(m.value) + rest))
    ensures ReadsAs(s, p, m, rest, pool)
  {
    hide Stands, NameAt, ValueEndOf, ValueOf, EndsValue, NameText, ValueText, Given;
    StandsSplit(s, p, NameText(m), ValueText(m.value) + rest);
    var start := p + |NameText(m)|;
    ValueReads(s, start, m.value, rest, pool);
    StandsSplit(s, start, ValueText(m.value), rest);
    NameReads(s, p, m);
  }

  /** The lookup over a whole body. */
  lemma LookupFindsFirst(ms: seq<Member>, tail: seq<byte>, key: seq<byte>, pool: bool)
    requires ProperObject(ms, tail) && |key| < KEY_MAX
    ensures Lookup(MembersText(ms, tail), key, pool) == FirstMatch(ms, key, pool)
  {
    var s := MembersText(ms, tail);
    assert s[0..0 + |s|] == s;
    FindsFirst(s, 0, ms, tail, key, pool);
  }

  lemma {:induction false} FirstMatchIs(ms: seq<Member>, key: seq<byte>, i: nat, pool: bool)
    requires i < |ms| && ms[i].key == key && |key| < KEY_MAX && forall j :: 0 <= j < i ==> ms[j].key != key
    ensures FirstMatch(ms, key, pool)
         == if forall j :: 0 <= j < i ==> |ms[j].key| <= KEY_MAX then Given(ms[i].value, pool) else NotFound
  {
    hide Given;
    if i > 0 && |ms[0].key| <= KEY_MAX {
      FirstMatchIs(ms[1..], key, i - 1, pool);
      if k :| 0 <= k < i && |ms[k].key| > KEY_MAX {
        assert ms[1..][k - 1] == ms[k];
      }
    }
  }

  /**
   * A member that is there is found exactly when its name is shorter than 64
   * octets and no name before it is longer than that; otherwise the answer is
   * that it is missing.  Without a pool its value is given unless it is a string.
   */
  lemma FoundUnlessLongName(ms: seq<Member>, tail: seq<byte>, key: seq<byte>, i: nat, pool: bool)
    requires ProperObject(ms, tail)
    requires i < |ms| && ms[i].key == key && forall j :: 0 <= j < i ==> ms[j].key != key
    ensures Lookup(MembersText(ms, tail), key, pool)
         == if |key| < 64 && forall j :: 0 <= j < i ==> |ms[j].key| <= 64 then Given(ms[i].value, pool) else NotFound
  {
    if |key| < KEY_MAX {
      hide Lookup, Given, ProperObject, MembersText;
      LookupFindsFirst(ms, tail, key, pool);
      FirstMatchIs(ms, key, i, pool);
    }
  }

  /** n letters that need no escape. */
  function Letters(n: nat): (t: seq<byte>)
    ensures |t| == n && forall i :: 0 <= i < n ==> t[i] == 110
  {
    seq(n, _ => 110)
  }

  lemma {:induction false} LettersDecode(n: nat, p: nat)
    requires p <= n
    ensures Decode(Letters(n) + [QUOTE], p) == Some(Json.Text(Letters(n - p), n + 1))
    decreases n - p
  {
    if p < n {
      LettersDecode(n, p + 1);
      assert [110] + Letters(n - p - 1) == Letters(n - p);
    }
  }

  lemma LettersMean(n: nat)
    ensures MeansText(Letters(n), Letters(n))
  {
    LettersDecode(n, 0);
  }

  /** A name of 65 octets, and behind it a member that the lookup does not find. */
  lemma LongNameHides() returns (ms: seq<Member>, tail: seq<byte>)
    ensures ProperObject(ms, tail) && |ms| == 2 && |ms[0].key| == KEY_MAX + 1 && |ms[1].key| == 1
    ensures Lookup(MembersText(ms, tail), ms[1].key, true) == NotFound
  {
    ms := [Member([123], Letters(KEY_MAX + 1), Letters(KEY_MAX + 1), [], [], Value.Bare([49])),
           Member([COMMA], Letters(1), Letters(1), [], [], Value.Bare([50]))];
    tail := [125];
    LettersMean(KEY_MAX + 1);
    LettersMean(1);
    hide MeansText, MembersText, Lookup;
    assert ProperMember(ms[0]) && ProperMember(ms[1]);
    assert EndsValue(ms[1].lead) && CloseFirst(tail) by {
      assert ms[1].lead[0] == COMMA && Closes(tail[0]);
    }
    FoundUnlessLongName(ms, tail, ms[1].key, 1, true);
  }
}
