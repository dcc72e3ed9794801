/** Routing of raw events to the partition streams of the write-ahead log. */
module Routing {

  // ----- Subjects and filters, as the broker reads them -----

  /** The dot-separated tokens of a subject. */
  function Split(s: string): (ts: seq<string>)
    ensures |ts| >= 1
  {
    if s == "" then [""]
    else if s[0] == '.' then [""] + Split(s[1..])
    else Push(s[0], Split(s[1..]))
  }

  /** Prepends a character to the first token. */
  function Push(c: char, ts: seq<string>): seq<string>
    requires ts != []
  {
    [[c] + ts[0]] + ts[1..]
  }

  lemma PushJoins(c: char, a: seq<string>, b: seq<string>)
    requires a != []
    ensures Push(c, a + b) == Push(c, a) + b
  {
    assert (a + b)[0] == a[0] && (a + b)[1..] == a[1..] + b;
  }

  /** "*" stands for exactly one token, a final ">" for one or more. */
  predicate MatchTokens(filter: seq<string>, subject: seq<string>) {
    if filter == [] then subject == []
    else if filter[0] == ">" then |filter| == 1 && subject != []
    else subject != [] && (filter[0] == "*" || filter[0] == subject[0]) && MatchTokens(filter[1..], subject[1..])
  }

  predicate Matches(filter: string, subject: string) {
    MatchTokens(Split(filter), Split(subject))
  }

  predicate IsToken(t: string) {
    t != "" && '.' !in t && t != "*" && t != ">"
  }

  lemma {:induction false} SplitToken(t: string)
    requires '.' !in t
    ensures Split(t) == [t]
  {
    if t != "" {
      assert forall c :: c in t[1..] ==> c in t;
      SplitToken(t[1..]);
      assert t == [t[0]] + t[1..];
    }
  }

  lemma {:induction false} SplitAtDot(a: string, b: string)
    ensures Split(a + "." + b) == Split(a) + Split(b)
  {
    var s := a + "." + b;
    if a == "" {
      assert s == "." + b && s[1..] == b;
    } else {
      assert s[1..] == a[1..] + "." + b && s[0] == a[0];
      SplitAtDot(a[1..], b);
      PushJoins(a[0], Split(a[1..]), Split(b));
    }
  }

  // ----- subjects.go -----

  const STREAM_NAME := "INGEST_RAW"

  predicate SafeChar(c: char) {
    'a' <= c <= 'z' || 'A' <= c <= 'Z' || '0' <= c <= '9' || c == ':' || c == '_' || c == '=' || c == '-'
  }

  function SanitizeToken(s: string): (t: string)
    ensures t != "" && forall i :: 0 <= i < |t| ==> SafeChar(t[i])
  {
    if s == "" then "-" else seq(|s|, i requires 0 <= i < |s| => if SafeChar(s[i]) then s[i] else '-')
  }

  function DotsToUnderscores(s: string): string {
    seq(|s|, i requires 0 <= i < |s| => if s[i] == '.' then '_' else s[i])
  }

  function TypeToken(ceType: string): string {
    SanitizeToken(DotsToUnderscores(ceType))
  }

  lemma SanitizedIsToken(s: string)
    ensures IsToken(SanitizeToken(s))
  {
    var t := SanitizeToken(s);
    assert SafeChar(t[0]);
    assert forall i :: 0 <= i < |t| ==> SafeChar(t[i]) && t[i] != '.';
  }

  function Digit(d: nat): char
    requires d < 10
  {
    ('0' as int + d) as char
  }

  function Decimal(n: nat): (s: string)
    ensures |s| >= 1
  {
    if n < 10 then [Digit(n)] else Decimal(n / 10) + [Digit(n % 10)]
  }

  /** %03d */
  function Padded(n: nat): string {
    var s := Decimal(n);
    if |s| == 1 then "00" + s else if |s| == 2 then "0" + s else s
  }

  /** hash stands for 32-bit FNV-1a; nothing below depends on which function it is. */
  function Partition(ceSubject: string, partitions: int, hash: string -> nat): nat {
    if partitions <= 1 then 0 else hash(ceSubject) % partitions
  }

  function PartitionToken(i: nat): string {
    "p" + Padded(i)
  }

  function Subject(ceType: string, ceSubject: string, partitions: int, hash: string -> nat): string {
    var base := "in.raw" + "." + TypeToken(ceType) + "." + SanitizeToken(ceSubject);
    if partitions <= 1 then base else base + "." + PartitionToken(Partition(ceSubject, partitions, hash))
  }

  function StreamNameFor(i: nat, n: int): string {
    if n <= 1 then STREAM_NAME else STREAM_NAME + "_P" + Padded(i)
  }

  function PartitionFilter(i: nat, n: int): string {
    if n <= 1 then "in.raw" + "." + ">" else "in.raw" + "." + "*" + "." + "*" + "." + PartitionToken(i)
  }

  function SubjectFilterForType(ceType: string): string {
    "in.raw" + "." + TypeToken(ceType) + "." + ">"
  }

  // ----- Partition tokens -----

  /** Reads decimal digits back. */
  function Value(s: string): int {
    if s == "" then 0 else Value(s[..|s| - 1]) * 10 + (s[|s| - 1] as int - '0' as int)
  }

  lemma {:induction false} ValueOfDecimal(n: nat)
    ensures Value(Decimal(n)) == n
    ensures forall i :: 0 <= i < |Decimal(n)| ==> '0' <= Decimal(n)[i] <= '9'
  {
    var s := Decimal(n);
    if n < 10 {
      assert s[..0] == "";
    } else {
      ValueOfDecimal(n / 10);
      assert s[..|s| - 1] == Decimal(n / 10);
    }
  }

  lemma {:induction false} LeadingZero(s: string)
    ensures Value("0" + s) == Value(s)
  {
    if s == "" {
      assert ("0" + s)[..0] == "";
    } else {
      assert ("0" + s)[..|s|] == "0" + s[..|s| - 1];
      LeadingZero(s[..|s| - 1]);
    }
  }

  /** Padding changes neither the number nor the digits used, however many there are. */
  lemma ValueOfPadded(n: nat)
    ensures Value(Padded(n)) == n
    ensures forall i :: 0 <= i < |Padded(n)| ==> '0' <= Padded(n)[i] <= '9'
  {
    var s := Decimal(n);
    ValueOfDecimal(n);
    LeadingZero(s);
    LeadingZero("0" + s);
    assert "00" + s == "0" + ("0" + s);
  }

  lemma PartitionTokenIsToken(i: nat)
    ensures IsToken(PartitionToken(i))
  {
    ValueOfPadded(i);
    var t, s := PartitionToken(i), Padded(i);
    assert forall k :: 0 < k < |t| ==> t[k] == s[k - 1] && t[k] != '.';
  }

  lemma PartitionTokenInjective(i: nat, j: nat)
    requires PartitionToken(i) == PartitionToken(j)
    ensures i == j
  {
    assert PartitionToken(i)[1..] == Padded(i) && PartitionToken(j)[1..] == Padded(j);
    ValueOfPadded(i);
    ValueOfPadded(j);
  }

  // ----- Exactly one stream per subject -----

  lemma RootTokens()
    ensures Split("in.raw") == ["in", "raw"]
  {
    assert "in.raw" == "in" + "." + "raw";
    SplitAtDot("in", "raw");
    SplitToken("in");
    SplitToken("raw");
  }

  /** The tokens of a published subject. */
  function SubjectTokens(ceType: string, ceSubject: string, partitions: int, hash: string -> nat): seq<string> {
    var base := ["in", "raw", TypeToken(ceType), SanitizeToken(ceSubject)];
    if partitions <= 1 then base else base + [PartitionToken(Partition(ceSubject, partitions, hash))]
  }

  lemma SplitSubject(ceType: string, ceSubject: string, partitions: int, hash: string -> nat)
    ensures Split(Subject(ceType, ceSubject, partitions, hash)) == SubjectTokens(ceType, ceSubject, partitions, hash)
  {
    var t, s, p := TypeToken(ceType), SanitizeToken(ceSubject), PartitionToken(Partition(ceSubject, partitions, hash));
    RootTokens();
    SanitizedIsToken(DotsToUnderscores(ceType));
    SanitizedIsToken(ceSubject);
    PartitionTokenIsToken(Partition(ceSubject, partitions, hash));
    SplitToken(t);
    SplitToken(s);
    SplitToken(p);
    SplitAtDot("in.raw", t);
    SplitAtDot("in.raw" + "." + t, s);
    SplitAtDot("in.raw" + "." + t + "." + s, p);
  }

  lemma SplitPartitionFilter(i: nat, n: int)
    ensures Split(PartitionFilter(i, n))
            == if n <= 1 then ["in", "raw", ">"] else ["in", "raw", "*", "*", PartitionToken(i)]
  {
    RootTokens();
    SplitToken(">");
    SplitToken("*");
    PartitionTokenIsToken(i);
    SplitToken(PartitionToken(i));
    SplitAtDot("in.raw", ">");
    SplitAtDot("in.raw", "*");
    SplitAtDot("in.raw" + "." + "*", "*");
    SplitAtDot("in.raw" + "." + "*" + "." + "*", PartitionToken(i));
  }

  ghost predicate Plain(filter: seq<string>) {
    forall i :: 0 <= i < |filter| ==> filter[i] != ">"
  }

  ghost predicate Agree(filter: seq<string>, ts: seq<string>)
    requires |filter| <= |ts|
  {
    forall i :: 0 <= i < |filter| ==> filter[i] == "*" || filter[i] == ts[i]
  }

  /** Without ">" a filter matches token by token ... */
  lemma {:induction false} MatchPlain(filter: seq<string>, ts: seq<string>)
    requires Plain(filter)
    ensures MatchTokens(filter, ts) <==> |filter| == |ts| && Agree(filter, ts)
  {
    if filter != [] && ts != [] {
      MatchPlain(filter[1..], ts[1..]);
      if |filter| == |ts| { AgreeSteps(filter, ts); }
    }
  }

  lemma AgreeSteps(filter: seq<string>, ts: seq<string>)
    requires 0 < |filter| <= |ts|
    ensures Agree(filter, ts) <==> (filter[0] == "*" || filter[0] == ts[0]) && Agree(filter[1..], ts[1..])
  {
    if Agree(filter[1..], ts[1..]) && (filter[0] == "*" || filter[0] == ts[0]) {
      forall i | 0 <= i < |filter| ensures filter[i] == "*" || filter[i] == ts[i] {
        if i > 0 { assert filter[1..][i - 1] == "*" || filter[1..][i - 1] == ts[1..][i - 1]; }
      }
    }
  }

  /** ... and with a final ">" it matches every longer subject that agrees so far. */
  lemma {:induction false} MatchOpen(filter: seq<string>, ts: seq<string>)
    requires Plain(filter)
    ensures MatchTokens(filter + [">"], ts) <==> |ts| > |filter| && Agree(filter, ts)
  {
    var open := filter + [">"];
    if filter == [] {
      assert open == [">"];
    } else if ts != [] {
      assert open[1..] == filter[1..] + [">"];
      MatchOpen(filter[1..], ts[1..]);
      if |ts| > |filter| { AgreeSteps(filter, ts); }
    }
  }

  /** What a partition filter accepts, of all strings. */
  lemma PartitionFilterAccepts(i: nat, n: int, subject: string)
    requires n > 1
    ensures var ts := Split(subject);
            Matches(PartitionFilter(i, n), subject)
            <==> |ts| == 5 && ts[0] == "in" && ts[1] == "raw" && ts[4] == PartitionToken(i)
  {
    SplitPartitionFilter(i, n);
    PartitionTokenIsToken(i);
    var f := ["in", "raw", "*", "*", PartitionToken(i)];
    MatchPlain(f, Split(subject));
    assert f[0] == "in" && f[1] == "raw" && f[2] == "*" && f[3] == "*" && f[4] == PartitionToken(i);
  }

  /** For all header strings and any number of partitions, the published subject matches the filter
      of its own partition and of no other. */
  lemma RoutesToExactlyOneStream(ceType: string, ceSubject: string, partitions: int, hash: string -> nat, j: nat)
    requires partitions >= 1 && j < partitions
    ensures Partition(ceSubject, partitions, hash) < partitions
    ensures Matches(PartitionFilter(j, partitions), Subject(ceType, ceSubject, partitions, hash))
            <==> j == Partition(ceSubject, partitions, hash)
  {
    var p := Partition(ceSubject, partitions, hash);
    SplitSubject(ceType, ceSubject, partitions, hash);
    if partitions == 1 {
      SplitPartitionFilter(j, partitions);
      var f, ts := ["in", "raw"], SubjectTokens(ceType, ceSubject, partitions, hash);
      assert f + [">"] == ["in", "raw", ">"];
      MatchOpen(f, ts);
    } else {
      PartitionFilterAccepts(j, partitions, Subject(ceType, ceSubject, partitions, hash));
      if PartitionToken(j) == PartitionToken(p) { PartitionTokenInjective(j, p); }
    }
  }

  /** A type filter selects exactly the events whose type token is the same, whatever the layout. */
  lemma TypeFilterExact(wanted: string, ceType: string, ceSubject: string, partitions: int, hash: string -> nat)
    ensures Matches(SubjectFilterForType(wanted), Subject(ceType, ceSubject, partitions, hash))
            <==> TypeToken(wanted) == TypeToken(ceType)
  {
    var w := TypeToken(wanted);
    SplitSubject(ceType, ceSubject, partitions, hash);
    RootTokens();
    SanitizedIsToken(DotsToUnderscores(wanted));
    SplitToken(w);
    SplitToken(">");
    SplitAtDot("in.raw", w);
    SplitAtDot("in.raw" + "." + w, ">");
    var f, ts := ["in", "raw", w], SubjectTokens(ceType, ceSubject, partitions, hash);
    assert f + [">"] == ["in", "raw"] + [w] + [">"];
    MatchOpen(f, ts);
    assert f[2] == w && ts[2] == TypeToken(ceType);
  }
}
