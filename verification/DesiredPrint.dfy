/** The text of a printed desired document, octet by octet. */
module DesiredPrint {
  import opened Common
  import opened Octets
  import opened JsonPrint
  import opened JsonScan
  import opened JsonField
  import opened Desired
  import opened DesiredText

  predicate Letters(t: string)
  {
    forall i :: 0 <= i < |t| ==> ' ' <= t[i] <= '~' && t[i] != '"' && t[i] != '\\'
  }

  predicate Plain(t: string)
  {
    forall i :: 0 <= i < |t| ==> t[i] < 128 as char
  }

  // ---- What it should be ---------------------------------------------------------

  /** The identities of some children, from the i-th on. */
  function Children(ids: seq<seq<byte>>, i: nat): seq<byte>
    requires i <= |ids|
    decreases |ids| - i
  {
    if i == |ids| then []
    else Ascii(if i == 0 then "{\"id\":" else ",{\"id\":") + (Printed(ids[i]) + (Ascii("}") + Children(ids, i + 1)))
  }

  function Array(inner: seq<byte>): seq<byte>
  {
    Ascii("[") + (inner + Ascii("]"))
  }

  const TO_APPLICATION := Ascii("{\"application\":")
  const TO_NAME := Ascii(",\"name\":")
  const TO_SOURCES := Ascii(",\"sources\":")
  const TO_DESTINATIONS := Ascii(",\"destinations\":")
  const TO_END := Ascii("}")

  function StreamText(w: Wanted): seq<byte>
  {
    TO_APPLICATION + (Printed(w.application)
    + (TO_NAME + (Printed(w.name)
    + (TO_SOURCES + (Array(Children(w.sources, 0))
    + (TO_DESTINATIONS + (Array(Children(w.destinations, 0))
    + TO_END)))))))
  }

  function StreamsText(ws: seq<Wanted>, i: nat): seq<byte>
    requires i <= |ws|
    decreases |ws| - i
  {
    if i == |ws| then []
    else Ascii(if i == 0 then "" else ",") + (StreamText(ws[i]) + StreamsText(ws, i + 1))
  }

  // ---- That it is -------------------------------------------------------------------

  lemma {:induction false} PlainEscaped(t: string)
    requires Letters(t) && Plain(t)
    ensures Escaped(Ascii(t)) == Ascii(t)
  {
    if t != [] {
      assert Ascii(t)[0] == t[0] as int && Ascii(t)[1..] == Ascii(t[1..]);
      PlainEscaped(t[1..]);
      assert [Ascii(t)[0]] + Ascii(t[1..]) == Ascii(t);
    }
  }

  /** A member's name with what stands before it. */
  lemma KeyText(m: Member, lead: string, key: string)
    requires Letters(key) && Plain(key) && Plain(lead) && m.lead == Ascii(lead) && m.raw == Ascii(key) && m.gap == [] && m.gap2 == []
    ensures NameText(m) == Ascii(lead + ("\"" + (key + "\":")))
  {
    var text := lead + ("\"" + (key + "\":"));
    var n, k := |lead|, |key|;
    assert |NameText(m)| == |text|;
    forall i | 0 <= i < |text| ensures NameText(m)[i] == Ascii(text)[i] {
      if i > n && i <= n + k {
        assert text[i] == key[i - n - 1];
      }
    }
  }

  lemma ValueIs(v: seq<byte>)
    ensures ValueText(Str(Escaped(v), v)) == Printed(v)
  {
    ConcatAssociative([QUOTE], Escaped(v), [QUOTE]);
  }

  lemma Names()
    ensures Letters("id") && Plain("id") && ID == Ascii("id")
    ensures Letters("application") && Plain("application") && APPLICATION == Ascii("application")
    ensures Letters("name") && Plain("name") && NAME == Ascii("name")
    ensures Letters("sources") && Plain("sources") && SOURCES == Ascii("sources")
    ensures Letters("destinations") && Plain("destinations") && DESTINATIONS == Ascii("destinations")
  {
  }

  lemma MarksAre()
    ensures Ascii("") == [] && Ascii(",") == [COMMA] && Ascii("{") == [123] && Ascii("}") == [125]
    ensures Ascii("[") == [91] && Ascii("]") == [93] && LEFT_BRACE == 123 && LEFT_BRACKET == 91 && RIGHT_BRACKET == 93
  {
  }

  lemma AsciiConcat(a: string, b: string)
    requires Plain(a) && Plain(b)
    ensures Plain(a + b) && Ascii(a + b) == Ascii(a) + Ascii(b)
  {
  }

  lemma StringName(lead: string, key: string, v: seq<byte>)
    requires Letters(key) && Plain(key) && Plain(lead)
    ensures var m := StringMember(Ascii(lead), Ascii(key), v);
            NameText(m) == Ascii(lead + ("\"" + (key + "\":"))) && ValueText(m.value) == Printed(v)
  {
    hide NameText, ValueText, Escaped, Printed;
    PlainEscaped(key);
    KeyText(StringMember(Ascii(lead), Ascii(key), v), lead, key);
    ValueIs(v);
  }

  lemma ChildText(id: seq<byte>)
    ensures ObjText(ChildObj(id)) == Ascii("{\"id\":") + (Printed(id) + Ascii("}"))
  {
    Names();
    MarksAre();
    StringName("", "id", id);
    assert "" + ("\"" + ("id" + "\":")) == "\"id\":";
    AsciiConcat("{", "\"id\":");
    assert "{" + "\"id\":" == "{\"id\":";
    hide NameText, ValueText, Printed, ID, Ascii;
    var m := StringMember([], ID, id);
    assert [m][1..] == [];
    assert MembersText([m], [] + [125]) == NameText(m) + (Printed(id) + [125]);
    ConcatAssociative([LEFT_BRACE], NameText(m), Printed(id) + [125]);
  }

  /** One child and the others, as they are written. */
  lemma ChildFirst(i: nat, v: seq<byte>, rest: seq<byte>)
    ensures Comma(i) + ((Ascii("{\"id\":") + (v + Ascii("}"))) + rest)
         == Ascii(if i == 0 then "{\"id\":" else ",{\"id\":") + (v + (Ascii("}") + rest))
  {
    MarksAre();
    AsciiConcat(",", "{\"id\":");
    assert "," + "{\"id\":" == ",{\"id\":";
    hide Ascii;
    var head, close := Ascii("{\"id\":"), Ascii("}");
    ConcatAssociative(head, v + close, rest);
    ConcatAssociative(v, close, rest);
    ConcatAssociative(Comma(i), head, v + (close + rest));
    assert [] + head == head;
  }

  lemma {:induction false} ChildrenText(ids: seq<seq<byte>>, i: nat)
    requires i <= |ids|
    ensures ArrayText(ChildElems(ids)[i..], []) == Children(ids, i)
    decreases |ids| - i
  {
    hide ChildObj, ObjText, Printed, Ascii, Comma;
    if i < |ids| {
      ChildrenText(ids, i + 1);
      ChildText(ids[i]);
      ChildFirst(i, Printed(ids[i]), Children(ids, i + 1));
      var es := ChildElems(ids);
      assert es[i..][1..] == es[i + 1..] && es[i..][0] == es[i];
    }
  }

  lemma ArrayName(key: string, ids: seq<seq<byte>>)
    requires Letters(key) && Plain(key)
    ensures var m := ArrayMember(Ascii(key), ChildElems(ids));
            NameText(m) == Ascii(",\"" + (key + "\":")) && ValueText(m.value) == Array(Children(ids, 0))
  {
    hide NameText, Escaped, ArrayText, ElemsPieces;
    MarksAre();
    PlainEscaped(key);
    KeyText(ArrayMember(Ascii(key), ChildElems(ids)), ",", key);
    assert "," + ("\"" + (key + "\":")) == ",\"" + (key + "\":");
    ChildElemsProper(ids);
    ArrayIsPiece(ChildElems(ids));
    ChildrenText(ids, 0);
    assert ChildElems(ids)[0..] == ChildElems(ids);
  }

  lemma FourMembers(a: Member, b: Member, c: Member, d: Member, tail: seq<byte>)
    ensures MembersText([a, b, c, d], tail)
         == NameText(a) + (ValueText(a.value) + (NameText(b) + (ValueText(b.value)
            + (NameText(c) + (ValueText(c.value) + (NameText(d) + (ValueText(d.value) + tail)))))))
  {
    hide NameText, ValueText;
    assert [a, b, c, d][1..] == [b, c, d] && [b, c, d][1..] == [c, d] && [c, d][1..] == [d] && [d][1..] == [];
    assert MembersText([d], tail) == NameText(d) + (ValueText(d.value) + tail);
    assert MembersText([c, d], tail) == NameText(c) + (ValueText(c.value) + MembersText([d], tail));
    assert MembersText([b, c, d], tail) == NameText(b) + (ValueText(b.value) + MembersText([c, d], tail));
  }

  lemma MembersAre(w: Wanted)
    ensures var ms := StreamObj(w).ms;
            && |ms| == 4 && StreamObj(w).pad == []
            && ms[0] == StringMember([], APPLICATION, w.application) && ms[1] == StringMember([COMMA], NAME, w.name)
            && ms[2] == ArrayMember(SOURCES, ChildElems(w.sources))
            && ms[3] == ArrayMember(DESTINATIONS, ChildElems(w.destinations))
  {
    hide StringMember, ArrayMember, ChildElems, APPLICATION, NAME, SOURCES, DESTINATIONS;
  }

  lemma TextsJoin()
    ensures "" + ("\"" + ("application" + "\":")) == "\"application\":" && "{" + "\"application\":" == "{\"application\":"
    ensures "," + ("\"" + ("name" + "\":")) == ",\"name\":"
    ensures ",\"" + ("sources" + "\":") == ",\"sources\":"
  {
  }

  lemma LongTextJoins()
    ensures ",\"" + ("destinations" + "\":") == ",\"destinations\":"
  {
  }

  lemma ApplicationIs(v: seq<byte>)
    ensures var m := StringMember([], APPLICATION, v);
            [LEFT_BRACE] + NameText(m) == TO_APPLICATION && ValueText(m.value) == Printed(v)
  {
    hide NameText, ValueText, Printed, StringMember, Letters, Escaped;
    Names();
    MarksAre();
    StringName("", "application", v);
    TextsJoin();
    AsciiConcat("{", "\"application\":");
  }

  lemma NameIs(v: seq<byte>)
    ensures var m := StringMember([COMMA], NAME, v); NameText(m) == TO_NAME && ValueText(m.value) == Printed(v)
  {
    hide NameText, ValueText, Printed, StringMember, Letters, Escaped;
    Names();
    MarksAre();
    StringName(",", "name", v);
    TextsJoin();
  }

  lemma SourcesAre(ids: seq<seq<byte>>)
    ensures var m := ArrayMember(SOURCES, ChildElems(ids));
            NameText(m) == TO_SOURCES && ValueText(m.value) == Array(Children(ids, 0))
  {
    hide NameText, ValueText, ArrayMember, ChildElems, Array, Children, Letters;
    Names();
    ArrayName("sources", ids);
    TextsJoin();
  }

  lemma DestinationsAre(ids: seq<seq<byte>>)
    ensures var m := ArrayMember(DESTINATIONS, ChildElems(ids));
            NameText(m) == TO_DESTINATIONS && ValueText(m.value) == Array(Children(ids, 0))
  {
    hide NameText, ValueText, ArrayMember, ChildElems, Array, Children, Letters;
    Names();
    ArrayName("destinations", ids);
    LongTextJoins();
  }

  lemma EndIs()
    ensures TO_END == [125]
  {
  }

  lemma StreamIs(w: Wanted)
    ensures ObjText(StreamObj(w)) == StreamText(w)
  {
    hide NameText, ValueText, Printed, Array, Children, MembersText, StreamObj, StringMember, ArrayMember,
      APPLICATION, NAME, SOURCES, DESTINATIONS, TO_APPLICATION, TO_NAME, TO_SOURCES, TO_DESTINATIONS, TO_END;
    MembersAre(w);
    ApplicationIs(w.application);
    NameIs(w.name);
    SourcesAre(w.sources);
    DestinationsAre(w.destinations);
    EndIs();
    var ms := StreamObj(w).ms;
    assert ms == [ms[0], ms[1], ms[2], ms[3]];
    assert [] + [125] == [125];
    FourMembers(ms[0], ms[1], ms[2], ms[3], [125]);
    BraceJoins(NameText(ms[0]), Printed(w.application)
      + (TO_NAME + (Printed(w.name)
      + (TO_SOURCES + (Array(Children(w.sources, 0))
      + (TO_DESTINATIONS + (Array(Children(w.destinations, 0)) + TO_END)))))));
  }

  lemma BraceJoins(name: seq<byte>, rest: seq<byte>)
    ensures [LEFT_BRACE] + (name + rest) == ([LEFT_BRACE] + name) + rest
  {
    ConcatAssociative([LEFT_BRACE], name, rest);
  }

  lemma {:induction false} StreamsAre(ws: seq<Wanted>, i: nat)
    requires i <= |ws|
    ensures ArrayText(StreamElems(ws)[i..], []) == StreamsText(ws, i)
    decreases |ws| - i
  {
    hide StreamObj, ObjText, StreamText, Ascii;
    if i < |ws| {
      StreamsAre(ws, i + 1);
      StreamIs(ws[i]);
      MarksAre();
      var es := StreamElems(ws);
      assert es[i..][1..] == es[i + 1..] && es[i..][0] == es[i];
    }
  }

  /** A printed document, octet by octet: this is what `DesiredText.PrintedDocumentReads` reads. */
  lemma PrintSpelled(ws: seq<Wanted>)
    ensures Print(ws) == Array(StreamsText(ws, 0))
  {
    hide ArrayText, StreamsText, StreamElems, Ascii;
    StreamsAre(ws, 0);
    MarksAre();
    assert StreamElems(ws)[0..] == StreamElems(ws);
  }
}
