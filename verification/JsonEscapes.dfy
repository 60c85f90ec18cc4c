/** Escapes as UTF-8: when the bytes a string of ASCII characters and escapes is read as are well formed. */
module JsonEscapes {
  import opened Bytes
  import opened JsonGrammar
  import opened JsonText
  import opened Options
  import Encoding = Utf8
  import JsonRoundTrip

  /** An ASCII character or an escape. */
  predicate Escaped7(m: Mark) {
    m.Plain? ==> m.c < 128 as char
  }

  function CodeOf(m: Mark): Code
    requires Escaped7(m)
  {
    match m
    case Plain(c) => c as int
    case Named(n) => MEANINGS[n] as int
    case Coded(cp, _) => cp
  }

  function CodesOf(marks: seq<Mark>): (codes: seq<int>)
    requires forall m :: m in marks ==> Escaped7(m)
    ensures |codes| == |marks|
  {
    if marks == [] then [] else [CodeOf(marks[0])] + CodesOf(marks[1..])
  }

  function BytesOf(cp: Code): seq<Byte> {
    if Encoding.IsScalar(cp) then Encoding.Encode(cp) else SurrogateBytes(cp)
  }

  function AllBytes(marks: seq<Mark>): seq<Byte>
    requires forall m :: m in marks ==> Escaped7(m)
  {
    if marks == [] then [] else BytesOf(CodeOf(marks[0])) + AllBytes(marks[1..])
  }

  lemma SaidIsBytes(m: Mark)
    requires Escaped7(m)
    ensures Said(m) == Chars(BytesOf(CodeOf(m)))
  {
  }

  lemma CharsJoin(a: seq<Byte>, b: seq<Byte>)
    ensures Chars(a + b) == Chars(a) + Chars(b)
  {
  }

  lemma {:induction false} SaidAllIsBytes(marks: seq<Mark>)
    requires forall m :: m in marks ==> Escaped7(m)
    ensures SaidAll(marks) == Chars(AllBytes(marks))
    decreases |marks|
  {
    if marks != [] {
      hide Said, BytesOf, CodeOf, Chars;
      SaidIsBytes(marks[0]);
      SaidAllIsBytes(marks[1..]);
      CharsJoin(BytesOf(CodeOf(marks[0])), AllBytes(marks[1..]));
    }
  }

  /** A surrogate is no code point of UTF-8, whatever stands behind it. */
  lemma SurrogateStops(s: seq<Byte>, i: nat, cp: Code)
    requires !Encoding.IsScalar(cp) && i + 3 <= |s| && s[i..i + 3] == SurrogateBytes(cp)
    ensures !Encoding.ValidFrom(s, i)
  {
    assert cp / 4096 == 13;
    assert s[i] == s[i..i + 3][0] && s[i + 1] == s[i..i + 3][1] && s[i + 2] == s[i..i + 3][2];
    Encoding.FoldStart(s, i);
    Encoding.FoldThree(s, i, cp);
  }

  lemma FirstScalar(marks: seq<Mark>)
    requires marks != [] && forall m :: m in marks ==> Escaped7(m)
    ensures var cp, codes, rest := CodeOf(marks[0]), CodesOf(marks), CodesOf(marks[1..]);
            && (Encoding.AllScalar(codes) <==> Encoding.IsScalar(cp) && Encoding.AllScalar(rest))
            && (Encoding.AllScalar(codes) ==> Encoding.EncodeAll(codes) == BytesOf(cp) + Encoding.EncodeAll(rest))
  {
    assert CodesOf(marks) == [CodeOf(marks[0])] + CodesOf(marks[1..]);
    hide CodeOf, CodesOf, Encoding.Encode, SurrogateBytes;
    ScalarsJoin(CodeOf(marks[0]), CodesOf(marks[1..]));
  }

  lemma ScalarsJoin(cp: Code, rest: seq<int>)
    ensures Encoding.AllScalar([cp] + rest) <==> Encoding.IsScalar(cp) && Encoding.AllScalar(rest)
    ensures Encoding.AllScalar([cp] + rest) ==>
              Encoding.EncodeAll([cp] + rest) == BytesOf(cp) + Encoding.EncodeAll(rest)
  {
    hide Encoding.Encode, Encoding.IsScalar, SurrogateBytes;
    var codes := [cp] + rest;
    assert codes[0] == cp && codes[1..] == rest;
    if Encoding.AllScalar(codes) {
      forall i | 0 <= i < |rest| ensures Encoding.IsScalar(rest[i]) { assert rest[i] == codes[i + 1]; }
    }
  }

  lemma ByteCount(cp: Code)
    ensures Encoding.IsScalar(cp) ==> BytesOf(cp) == Encoding.Encode(cp)
    ensures !Encoding.IsScalar(cp) ==> BytesOf(cp) == SurrogateBytes(cp) && |BytesOf(cp)| == 3
  {
  }

  lemma {:induction false} ValidIffScalars(s: seq<Byte>, i: nat, marks: seq<Mark>)
    requires forall m :: m in marks ==> Escaped7(m)
    requires i <= |s| && s[i..] == AllBytes(marks)
    ensures Encoding.ValidFrom(s, i) <==> Encoding.AllScalar(CodesOf(marks))
    ensures Encoding.AllScalar(CodesOf(marks)) ==> Encoding.EncodeAll(CodesOf(marks)) == s[i..]
    decreases |marks|
  {
    if marks != [] {
      var cp := CodeOf(marks[0]);
      assert AllBytes(marks) == BytesOf(cp) + AllBytes(marks[1..]);
      hide *;
      CutFirst(s, i, BytesOf(cp), AllBytes(marks[1..]));
      FirstScalar(marks);
      ValidIffScalars(s, i + |BytesOf(cp)|, marks[1..]);
      FirstValid(s, i, cp);
    } else {
      assert i == |s|;
    }
  }

  lemma CutFirst(s: seq<Byte>, i: nat, one: seq<Byte>, rest: seq<Byte>)
    requires i <= |s| && s[i..] == one + rest
    ensures i + |one| <= |s| && s[i..i + |one|] == one && s[i + |one|..] == rest && s[i..] == one + s[i + |one|..]
  {
    assert s[i..i + |one|] == s[i..][..|one|];
    assert s[i + |one|..] == s[i..][|one|..];
  }

  lemma FirstValid(s: seq<Byte>, i: nat, cp: Code)
    requires i + |BytesOf(cp)| <= |s| && s[i..i + |BytesOf(cp)|] == BytesOf(cp)
    ensures Encoding.ValidFrom(s, i) <==> Encoding.IsScalar(cp) && Encoding.ValidFrom(s, i + |BytesOf(cp)|)
  {
    ByteCount(cp);
    if Encoding.IsScalar(cp) {
      hide BytesOf, Encoding.Encode, Encoding.Point;
      Encoding.PointReadsBack(s, i, cp);
    } else {
      hide BytesOf, Encoding.Encode, Encoding.Point;
      SurrogateStops(s, i, cp);
    }
  }

  /** A string of ASCII characters and escapes is read as the bytes of its codes; they are UTF-8, and then the
      encoding of these very codes, iff no escape is a surrogate. Surrogate pairs are not joined. */
  lemma EscapesAreUtf8IffScalars(scan: Scan, text: string, t: Tree)
    requires DocumentAt(scan, text, t) && t.form.Text? && forall m :: m in t.form.marks ==> Escaped7(m)
    ensures ReadDocument(scan, text) == Some(Str(Chars(AllBytes(t.form.marks))))
    ensures Encoding.IsEncoding(AllBytes(t.form.marks)) <==> Encoding.AllScalar(CodesOf(t.form.marks))
    ensures Encoding.AllScalar(CodesOf(t.form.marks)) ==>
              Encoding.EncodeAll(CodesOf(t.form.marks)) == AllBytes(t.form.marks)
  {
    var marks := t.form.marks;
    var s := AllBytes(marks);
    assert s[0..] == s;
    SaidAllIsBytes(marks);
    ValidIffScalars(s, 0, marks);
    Encoding.ValidIffEncoding(s);
    hide AllBytes, CodesOf, Chars, SaidAll, ValueAt, ReadDocument, Encoding.IsEncoding, Encoding.EncodeAll;
    ReadsIffSays(scan, text, Str(Chars(s)));
  }

  // --- What the builder escapes ---

  /** A character as the builder writes it: by its sign if it has one, save for the slash. */
  function Written(c: char): Mark {
    if c == MEANINGS[0] then Named(0) else if c == MEANINGS[1] then Named(1) else if c == MEANINGS[3] then Named(3)
    else if c == MEANINGS[4] then Named(4) else if c == MEANINGS[5] then Named(5) else if c == MEANINGS[6] then Named(6)
    else if c == MEANINGS[7] then Named(7) else Plain(c)
  }

  function AllWritten(s: string): (marks: seq<Mark>)
    ensures |marks| == |s|
  {
    if s == "" then [] else [Written(s[0])] + AllWritten(s[1..])
  }

  lemma EscapedIsWritten(text: string, a: nat, c: char)
    requires StartsAt(text, a, Escaped(c))
    ensures MarkAt(text, a, Written(c)) && Size(Written(c)) == |Escaped(c)| && Said(Written(c)) == [c]
  {
    assert text[a..a + |Escaped(c)|][0] == text[a];
    if |Escaped(c)| == 2 { assert text[a..a + |Escaped(c)|][1] == text[a + 1]; }
  }

  predicate HasSign(c: char) {
    c in ['"', '\\', '\n', '\r', '\t', 8 as char, 12 as char]
  }

  lemma WrittenIff(c: char)
    ensures Written(c).Named? <==> HasSign(c)
  {
  }

  /** A rendered string is spelled by one mark for each character, an escape exactly for those with a sign of their own;
      and it says the string. */
  lemma {:induction false} RenderedIsWritten(text: string, a: nat, s: string)
    requires StartsAt(text, a, RenderChars(s))
    ensures MarksAt(text, a, a + |RenderChars(s)|, AllWritten(s)) && SaidAll(AllWritten(s)) == s
    ensures forall i :: 0 <= i < |s| ==> (AllWritten(s)[i].Named? <==> HasSign(s[i]))
    decreases |s|
  {
    hide *;
    if s == "" {
      NothingWritten(text, a);
    } else {
      var one, rest := Escaped(s[0]), RenderChars(s[1..]);
      FirstWritten(s);
      JsonRoundTrip.StartsSplit(text, a, one, rest);
      EscapedIsWritten(text, a, s[0]);
      WrittenIff(s[0]);
      RenderedIsWritten(text, a + |one|, s[1..]);
      MarksStep(text, a, a + |one| + |rest|, Written(s[0]), AllWritten(s[1..]));
      assert [s[0]] + s[1..] == s;
    }
  }

  lemma FirstWritten(s: string)
    requires s != ""
    ensures RenderChars(s) == Escaped(s[0]) + RenderChars(s[1..])
    ensures AllWritten(s) == [Written(s[0])] + AllWritten(s[1..])
  {
    hide Escaped, Written;
  }

  lemma MarksStep(text: string, a: nat, b: nat, m: Mark, marks: seq<Mark>)
    requires MarkAt(text, a, m) && MarksAt(text, a + Size(m), b, marks)
    ensures MarksAt(text, a, b, [m] + marks) && SaidAll([m] + marks) == Said(m) + SaidAll(marks)
  {
    hide MarkAt, Said, Size;
    assert ([m] + marks)[1..] == marks;
  }

  lemma NothingWritten(text: string, a: nat)
    requires StartsAt(text, a, RenderChars(""))
    ensures MarksAt(text, a, a + |RenderChars("")|, AllWritten("")) && SaidAll(AllWritten("")) == ""
    ensures AllWritten("") == []
  {
    AtEnd(text, a);
  }

  lemma AtEnd(text: string, a: nat)
    requires StartsAt(text, a, "")
    ensures a <= |text|
  {
  }
}
