/** Quoting values into SQL text, and scrubbing quoted values out of error messages. */
module SqlText {

  const QUOTE := '\''
  const REDACTED := "'\U{2026}'"

  function Escape(v: string): string {
    if v == [] then [] else (if v[0] == QUOTE then "''" else [v[0]]) + Escape(v[1..])
  }

  /** sqlString */
  function Quoted(v: string): string {
    "'" + Escape(v) + "'"
  }

  /** A SQL string-literal reader, independent of the quoter: the text is what follows the opening
      quote; the result is the literal's value and whatever comes after its closing quote. */
  datatype Literal = Unterminated | Literal(value: string, rest: string)

  function ReadBody(s: string): Literal {
    if s == [] then Unterminated
    else if s[0] != QUOTE then
      var r := ReadBody(s[1..]);
      if r.Literal? then Literal([s[0]] + r.value, r.rest) else Unterminated
    else if |s| > 1 && s[1] == QUOTE then
      var r := ReadBody(s[2..]);
      if r.Literal? then Literal([QUOTE] + r.value, r.rest) else Unterminated
    else Literal([], s[1..])
  }

  function Read(s: string): Literal {
    if s != [] && s[0] == QUOTE then ReadBody(s[1..]) else Unterminated
  }

  /** Puts a character in front of a literal's value. */
  function Grow(c: char, r: Literal): Literal {
    if r.Literal? then Literal([c] + r.value, r.rest) else Unterminated
  }

  lemma ReadPlain(c: char, tail: string)
    requires c != QUOTE
    ensures ReadBody([c] + tail) == Grow(c, ReadBody(tail))
  {
    assert ([c] + tail)[1..] == tail;
  }

  lemma ReadDoubled(tail: string)
    ensures ReadBody("''" + tail) == Grow(QUOTE, ReadBody(tail))
  {
    assert ("''" + tail)[2..] == tail;
  }

  lemma ReadEnd(rest: string)
    requires rest == [] || rest[0] != QUOTE
    ensures ReadBody("'" + rest) == Literal([], rest)
  {
    assert ("'" + rest)[1..] == rest;
  }

  lemma EscapeNext(v: string, end: string)
    requires v != []
    ensures Escape(v) + end == (if v[0] == QUOTE then "''" else [v[0]]) + (Escape(v[1..]) + end)
    ensures v == [v[0]] + v[1..]
  {
    Assoc(if v[0] == QUOTE then "''" else [v[0]], Escape(v[1..]), end);
  }

  lemma {:induction false} ReadBodyUndoesEscape(v: string, rest: string, r: Literal)
    requires (rest == [] || rest[0] != QUOTE) && r == ReadBody(Escape(v) + ("'" + rest))
    ensures r == Literal(v, rest)
  {
    var end := "'" + rest;
    if v == [] {
      assert Escape(v) + end == end;
      ReadEnd(rest);
    } else {
      var tail := Escape(v[1..]) + end;
      ReadBodyUndoesEscape(v[1..], rest, ReadBody(tail));
      EscapeNext(v, end);
      if v[0] == QUOTE { ReadDoubled(tail); } else { ReadPlain(v[0], tail); }
    }
  }

  /** A literal reader gets back every value that was quoted, and stops exactly at its end. */
  lemma ReadUndoesQuoted(v: string, rest: string)
    requires rest == [] || rest[0] != QUOTE
    ensures Read(Quoted(v) + rest) == Literal(v, rest)
  {
    var body := Escape(v) + ("'" + rest);
    ReadBodyUndoesEscape(v, rest, ReadBody(body));
    assert (Quoted(v) + rest)[1..] == body;
  }

  // ----- Scrubbing -----

  /** What scrubbing emits for `s` when it starts inside (or outside) a literal. */
  function Scrub(s: string, inQuote: bool): string {
    if s == [] then []
    else if s[0] == QUOTE then (if inQuote then [] else REDACTED) + Scrub(s[1..], !inQuote)
    else (if inQuote then [] else [s[0]]) + Scrub(s[1..], inQuote)
  }

  method ScrubQuotedLiterals(s: string) returns (out: string)
    ensures out == Scrub(s, false)
  {
    out := "";
    var inQuote := false;
    for i := 0 to |s|
      invariant out + Scrub(s[i..], inQuote) == Scrub(s, false)
    {
      assert s[i..][1..] == s[i + 1..];
      if s[i] == QUOTE && !inQuote {
        out := out + REDACTED;
        inQuote := true;
      } else if s[i] == QUOTE && inQuote {
        inQuote := false;
      } else if !inQuote {
        out := out + [s[i]];
      }
    }
    assert s[|s|..] == [];
  }

  function Quotes(s: string): nat {
    if s == [] then 0 else (if s[0] == QUOTE then 1 else 0) + Quotes(s[1..])
  }

  /** Whether a literal is open after `s`. */
  predicate Open(s: string, inQuote: bool) {
    if s == [] then inQuote else Open(s[1..], if s[0] == QUOTE then !inQuote else inQuote)
  }

  lemma {:induction false} OpenIsParity(s: string, inQuote: bool)
    ensures Open(s, inQuote) == if Quotes(s) % 2 == 0 then inQuote else !inQuote
  {
    if s != [] { OpenIsParity(s[1..], if s[0] == QUOTE then !inQuote else inQuote); }
  }

  lemma Assoc(a: string, b: string, c: string)
    ensures a + b + c == a + (b + c)
  {
  }

  lemma {:induction false} ScrubJoins(a: string, b: string, inQuote: bool)
    ensures Scrub(a + b, inQuote) == Scrub(a, inQuote) + Scrub(b, Open(a, inQuote))
  {
    if a == [] {
      assert a + b == b;
    } else {
      assert (a + b)[1..] == a[1..] + b;
      var next := if a[0] == QUOTE then !inQuote else inQuote;
      ScrubJoins(a[1..], b, next);
      var shown := if inQuote then [] else if a[0] == QUOTE then REDACTED else [a[0]];
      Assoc(shown, Scrub(a[1..], next), Scrub(b, Open(a[1..], next)));
    }
  }

  function Repeat(s: string, n: nat): string {
    if n == 0 then [] else s + Repeat(s, n - 1)
  }

  /** Inside a literal, each escaped quote closes and reopens it; nothing else shows. */
  lemma {:induction false} ScrubEscaped(v: string)
    ensures Scrub(Escape(v), true) == Repeat(REDACTED, Quotes(v))
    ensures Quotes(Escape(v)) == 2 * Quotes(v)
  {
    if v != [] {
      var tail := Escape(v[1..]);
      ScrubEscaped(v[1..]);
      if v[0] == QUOTE {
        assert Escape(v) == "''" + tail;
        assert Escape(v)[1..] == "'" + tail && ("'" + tail)[1..] == tail;
      } else {
        assert Escape(v) == [v[0]] + tail && Escape(v)[1..] == tail;
      }
    }
  }

  lemma ScrubQuoted(v: string)
    ensures Scrub(Quoted(v), false) == Repeat(REDACTED, 1 + Quotes(v))
    ensures Quotes(Quoted(v)) == 2 + 2 * Quotes(v)
  {
    ScrubEscaped(v);
    OpenIsParity(Escape(v), true);
    var body := Escape(v);
    assert Quoted(v) == "'" + (body + "'");
    assert ("'" + (body + "'"))[1..] == body + "'";
    ScrubJoins(body, "'", true);
    assert Scrub("'", true) == [];
    QuotesJoin("'", body + "'");
    QuotesJoin(body, "'");
  }

  lemma {:induction false} QuotesJoin(a: string, b: string)
    ensures Quotes(a + b) == Quotes(a) + Quotes(b)
  {
    if a == [] {
      assert a + b == b;
    } else {
      assert (a + b)[1..] == a[1..] + b;
      QuotesJoin(a[1..], b);
    }
  }

  /** Scrubbing a statement that quotes v after balanced text shows one placeholder more than v has
      quotes, and nothing else of v; the text around it is scrubbed as if v were absent. */
  lemma ScrubHidesValue(before: string, v: string, after: string)
    requires Quotes(before) % 2 == 0
    ensures Scrub(before + Quoted(v) + after, false)
            == Scrub(before, false) + Repeat(REDACTED, 1 + Quotes(v)) + Scrub(after, false)
  {
    ScrubJoins(before + Quoted(v), after, false);
    ScrubJoins(before, Quoted(v), false);
    ScrubQuoted(v);
    QuotesJoin(before, Quoted(v));
    OpenIsParity(before, false);
    OpenIsParity(before + Quoted(v), false);
  }

  /** So two values with the same number of quotes are indistinguishable after scrubbing ... */
  lemma OnlyQuoteCountLeaks(before: string, v: string, w: string, after: string)
    requires Quotes(before) % 2 == 0 && Quotes(v) == Quotes(w)
    ensures Scrub(before + Quoted(v) + after, false) == Scrub(before + Quoted(w) + after, false)
  {
    ScrubHidesValue(before, v, after);
    ScrubHidesValue(before, w, after);
  }

  lemma {:induction false} ScrubPlain(v: string)
    requires Quotes(v) == 0
    ensures Scrub(v, false) == v
  {
    if v != [] {
      ScrubPlain(v[1..]);
      assert v == [v[0]] + v[1..];
    }
  }

  lemma ScrubInsideOut(v: string)
    requires Quotes(v) == 0
    ensures Scrub(Quoted(v), true) == v + REDACTED
  {
    NoEscape(v);
    var body := v + "'";
    assert Quoted(v)[1..] == body;
    OpenIsParity(v, false);
    ScrubJoins(v, "'", false);
    ScrubPlain(v);
    assert Scrub("'", false) == REDACTED + Scrub("'"[1..], true) == REDACTED;
  }

  /** ... and the balance is needed: after text with an open quote the value is shown in full. */
  lemma UnbalancedTextLeaks(before: string, v: string)
    requires Quotes(before) % 2 == 1 && Quotes(v) == 0
    ensures Scrub(before + Quoted(v), false) == Scrub(before, false) + (v + REDACTED)
  {
    ScrubJoins(before, Quoted(v), false);
    OpenIsParity(before, false);
    ScrubInsideOut(v);
  }

  /** Exactly when nothing but the number of quotes shows of a value: the text before it is balanced. */
  lemma HiddenExactly(before: string)
    ensures (forall v, w :: Quotes(v) == Quotes(w) ==>
               Scrub(before + Quoted(v), false) == Scrub(before + Quoted(w), false))
            <==> Quotes(before) % 2 == 0
  {
    if Quotes(before) % 2 == 0 {
      forall v, w | Quotes(v) == Quotes(w)
        ensures Scrub(before + Quoted(v), false) == Scrub(before + Quoted(w), false)
      {
        OnlyQuoteCountLeaks(before, v, w, "");
        assert before + Quoted(v) + "" == before + Quoted(v) && before + Quoted(w) + "" == before + Quoted(w);
      }
    } else {
      var n := |Scrub(before, false)|;
      UnbalancedTextLeaks(before, "a");
      UnbalancedTextLeaks(before, "b");
      assert Scrub(before + Quoted("a"), false)[n] == 'a' && Scrub(before + Quoted("b"), false)[n] == 'b';
      assert Quotes("a") == Quotes("b");
    }
  }

  lemma {:induction false} NoEscape(v: string)
    requires Quotes(v) == 0
    ensures Escape(v) == v
  {
    if v != [] {
      NoEscape(v[1..]);
      assert v == [v[0]] + v[1..];
    }
  }

  // ----- redact -----

  predicate Contains(s: string, part: string) {
    part <= s || (s != [] && Contains(s[1..], part))
  }

  predicate CredentialBearing(q: string) {
    Contains(q, "SECRET") || Contains(q, "ATTACH")
  }

  function Redacted(q: string): string {
    if CredentialBearing(q) then Scrub(q, false) else q
  }

  method Redact(q: string) returns (out: string)
    ensures out == Redacted(q)
  {
    if !CredentialBearing(q) {
      return q;
    }
    out := ScrubQuotedLiterals(q);
  }

  /** A statement is put together from fixed text and quoted values. */
  datatype Piece = Text(text: string) | Value(value: string)

  function Render(p: Piece): string {
    if p.Text? then p.text else Quoted(p.value)
  }

  function Statement(ps: seq<Piece>): string {
    if ps == [] then [] else Render(ps[0]) + Statement(ps[1..])
  }

  /** The text pieces close every literal they open. */
  ghost predicate Balanced(ps: seq<Piece>) {
    forall i :: 0 <= i < |ps| && ps[i].Text? ==> Quotes(ps[i].text) % 2 == 0
  }

  /** What is shown of a piece: scrubbed text, and one placeholder more than a value has quotes. */
  function Shown(p: Piece): string {
    if p.Text? then Scrub(p.text, false) else Repeat(REDACTED, 1 + Quotes(p.value))
  }

  function AllShown(ps: seq<Piece>): string {
    if ps == [] then [] else Shown(ps[0]) + AllShown(ps[1..])
  }

  /** Scrubbing a whole statement hides every one of its values. */
  lemma {:induction false} ScrubStatement(ps: seq<Piece>)
    requires Balanced(ps)
    ensures Scrub(Statement(ps), false) == AllShown(ps)
  {
    if ps != [] {
      var p, rest := ps[0], Statement(ps[1..]);
      ScrubStatement(ps[1..]);
      ScrubJoins(Render(p), rest, false);
      OpenIsParity(Render(p), false);
      if p.Value? { ScrubQuoted(p.value); }
    }
  }

  lemma {:induction false} ContainsInside(a: string, s: string, b: string, part: string)
    requires Contains(s, part)
    ensures Contains(a + s + b, part)
  {
    if a != [] {
      ContainsInside(a[1..], s, b, part);
      assert (a + s + b)[1..] == a[1..] + s + b;
    } else if part <= s {
      assert part <= a + s + b;
    } else {
      ContainsInside(a, s[1..], b, part);
      assert (a + s + b)[1..] == a + s[1..] + b;
    }
  }

  /** A keyword in some text piece is in the statement, whatever the values are. */
  lemma {:induction false} TextInStatement(ps: seq<Piece>, i: nat, part: string)
    requires i < |ps| && ps[i].Text? && Contains(ps[i].text, part)
    ensures Contains(Statement(ps), part)
  {
    var head, rest := Render(ps[0]), Statement(ps[1..]);
    if i == 0 {
      ContainsInside([], head, rest, part);
      assert [] + head + rest == head + rest;
    } else {
      TextInStatement(ps[1..], i - 1, part);
      ContainsInside(head, rest, [], part);
      assert head + rest + [] == head + rest;
    }
  }

  /** The same statement with other values in it, each with as many quotes as the one it replaces. */
  ghost predicate SameShape(ps: seq<Piece>, qs: seq<Piece>) {
    && |ps| == |qs|
    && (forall i :: 0 <= i < |ps| && ps[i].Text? ==> qs[i] == ps[i])
    && (forall i :: 0 <= i < |ps| && ps[i].Value? ==> qs[i].Value? && Quotes(qs[i].value) == Quotes(ps[i].value))
  }

  lemma {:induction false} SameShapeShowsTheSame(ps: seq<Piece>, qs: seq<Piece>)
    requires SameShape(ps, qs)
    ensures AllShown(ps) == AllShown(qs) && (Balanced(ps) ==> Balanced(qs))
  {
    if ps != [] { SameShapeShowsTheSame(ps[1..], qs[1..]); }
  }

  /** Redacting hides every quoted value of a statement whose text marks it as credential-bearing: what
      is logged shows its text and, of each value, only how many quotes it has, so it cannot tell
      two sets of credentials of the same shape apart. */
  lemma RedactHidesValues(ps: seq<Piece>, qs: seq<Piece>, i: nat)
    requires Balanced(ps) && SameShape(ps, qs)
    requires i < |ps| && ps[i].Text? && CredentialBearing(ps[i].text)
    ensures Redacted(Statement(ps)) == AllShown(ps)
    ensures Redacted(Statement(ps)) == Redacted(Statement(qs))
  {
    var part := if Contains(ps[i].text, "SECRET") then "SECRET" else "ATTACH";
    TextInStatement(ps, i, part);
    TextInStatement(qs, i, part);
    SameShapeShowsTheSame(ps, qs);
    ScrubStatement(ps);
    ScrubStatement(qs);
  }
}
