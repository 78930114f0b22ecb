/** Format strings: text with doubled braces, and replacement fields such as {}, {2:x} or {name}. */
module FormatString {
  import opened Decimals
  import opened Wrappers
  import Sequences

  datatype Problem = UnmatchedBrace | InvalidFormat | NumberTooBig | MissingBrace | UnknownSpecifier

  /** The calls a parser makes to its handler. */
  datatype Event =
    | Text(text: string)
    | AutoId
    | IndexId(index: nat)
    | NameId(name: string)
    | Replacement
    | Specs(specs: string)
    | Error(problem: Problem)

  /** The handler's own parser of format specifications: how much of the text behind the colon it takes. */
  type SpecParser = f: string -> nat | forall s :: f(s) <= |s| witness s => 0

  const MAX_INT: nat := 2147483647

  predicate IsNameStart(c: char) {
    'a' <= c <= 'z' || 'A' <= c <= 'Z' || c == '_'
  }

  /** The position of c, or the length if there is none. */
  function Find(s: string, c: char): (n: nat)
    ensures n <= |s| && c !in s[..n] && (n < |s| ==> s[n] == c)
  {
    if s == "" || s[0] == c then 0
    else
      var n := Find(s[1..], c);
      assert s[..n + 1] == [s[0]] + s[1..][..n];
      n + 1
  }

  // ----- argument identifiers -----

  function Digits(s: string, value: nat): (r: (nat, string))
    ensures |r.1| <= |s| && (|r.1| == |s| ==> s == "" || !IsDigit(s[0]) || value > MAX_INT / 10)
  {
    if s == "" || !IsDigit(s[0]) then (value, s)
    else if value > MAX_INT / 10 then (MAX_INT + 1, s)
    else Digits(s[1..], value * 10 + DigitValue(s[0]))
  }

  function NonnegativeInt(s: string): (r: (nat, string))
    requires s != "" && IsDigit(s[0])
    ensures |r.1| < |s|
  {
    if s[0] == '0' then (0, s[1..]) else Digits(s, 0)
  }

  function NameEnd(s: string): (n: nat)
    ensures n <= |s|
  {
    if s != "" && (IsNameStart(s[0]) || IsDigit(s[0])) then 1 + NameEnd(s[1..]) else 0
  }

  predicate Closes(s: string) {
    s != "" && (s[0] == '}' || s[0] == ':')
  }

  function ArgId(s: string): (r: (seq<Event>, string))
    requires s != ""
    ensures |r.1| <= |s|
    ensures forall e :: e in r.0 ==> !e.Text?
  {
    if Closes(s) then ([AutoId], s)
    else if IsDigit(s[0]) then
      var (value, rest) := NonnegativeInt(s);
      var last := if Closes(rest) then IndexId(value) else Error(InvalidFormat);
      (if value > MAX_INT then [Error(NumberTooBig), last] else [last], rest)
    else if !IsNameStart(s[0]) then ([Error(InvalidFormat)], s)
    else ([NameId(s[..NameEnd(s)])], s[NameEnd(s)..])
  }

  // ----- one replacement field -----

  /** The calls, and where to go on, unless the parser returns. */
  datatype Step = Step(events: seq<Event>, rest: Option<string>)

  /** What comes after an identifier. */
  function AfterId(s: string, specs: SpecParser): (r: Step)
    ensures r.rest.Some? ==> |r.rest.value| < |s|
    ensures forall e :: e in r.events ==> !e.Text?
    ensures r.events != [] && (r.rest.None? ==> r.events[|r.events| - 1].Error?)
  {
    if s != "" && s[0] == '}' then Step([Replacement], Some(s[1..]))
    else if s != "" && s[0] == ':' then
      var k := specs(s[1..]);
      var text, after := s[1..][..k], s[1..][k..];
      if after != "" && after[0] == '}' then Step([Specs(text)], Some(after[1..]))
      else Step([Specs(text), Error(UnknownSpecifier)], None)
    else Step([Error(MissingBrace)], None)
  }

  /** What comes after an opening brace. */
  function Field(s: string, specs: SpecParser): (r: Step)
    ensures r.rest.Some? ==> |r.rest.value| < |s|
    ensures (s != "" && s[0] == '{') || forall e :: e in r.events ==> !e.Text?
    ensures r.rest.None? ==> |r.events| > 0 && r.events[|r.events| - 1].Error?
  {
    if s == "" then Step([Error(InvalidFormat)], None)
    else if s[0] == '}' then Step([AutoId, Replacement], Some(s[1..]))
    else if s[0] == '{' then Step([Text("{")], Some(s[1..]))
    else
      var (id, rest) := ArgId(s);
      var after := AfterId(rest, specs);
      Step(id + after.events, after.rest)
  }

  // ----- two passes: look for '{', then for '}' in front of it -----

  function Pieces(s: string): seq<Event> {
    var p := Find(s, '}');
    if p == |s| then [Text(s)]
    else if p + 1 == |s| || s[p + 1] != '}' then [Error(UnmatchedBrace)]
    else [Text(s[..p + 1])] + Pieces(s[p + 2..])
  }

  function WriteText(s: string): seq<Event> {
    if s == "" then [] else Pieces(s)
  }

  function Calls(s: string, specs: SpecParser): seq<Event>
    decreases |s|
  {
    var n := Find(s, '{');
    WriteText(s[..n]) + (if n == |s| then [] else CallsAfterBrace(s[n + 1..], specs))
  }

  function CallsAfterBrace(s: string, specs: SpecParser): seq<Event>
    decreases |s|
  {
    var step := Field(s, specs);
    step.events + if step.rest.Some? then Calls(step.rest.value, specs) else []
  }

  // ----- one pass, character by character -----

  function OnePass(s: string, specs: SpecParser): seq<Event>
    decreases |s|
  {
    if s == "" then []
    else if s[0] == '{' then OnePassBrace(s[1..], specs)
    else if s[0] != '}' then [Text([s[0]])] + OnePass(s[1..], specs)
    else if |s| > 1 && s[1] == '}' then [Text("}")] + OnePass(s[2..], specs)
    else [Error(UnmatchedBrace)] + OnePass(s[1..][Find(s[1..], '{')..], specs)
  }

  function OnePassBrace(s: string, specs: SpecParser): seq<Event>
    decreases |s|
  {
    var step := Field(s, specs);
    step.events + if step.rest.Some? then OnePass(step.rest.value, specs) else []
  }

  /** The same calls, with the text passed character by character. */
  function Letters(es: seq<Event>): seq<Event> {
    if es == [] then []
    else (if es[0].Text? then TextLetters(es[0].text) else [es[0]]) + Letters(es[1..])
  }

  function TextLetters(t: string): seq<Event> {
    seq(|t|, i requires 0 <= i < |t| => Text([t[i]]))
  }

  lemma {:induction false} LettersSum(a: seq<Event>, b: seq<Event>)
    ensures Letters(a + b) == Letters(a) + Letters(b)
  {
    if a == [] {
      assert a + b == b;
    } else {
      assert (a + b)[1..] == a[1..] + b;
      LettersSum(a[1..], b);
    }
  }

  lemma LettersOfText(t: string)
    ensures Letters([Text(t)]) == TextLetters(t)
  {
    assert [Text(t)][1..] == [];
  }

  lemma {:induction false} LettersOfLetters(t: string)
    ensures Letters(TextLetters(t)) == TextLetters(t)
  {
    if t != "" {
      LettersOfLetters(t[1..]);
      assert TextLetters(t)[1..] == TextLetters(t[1..]);
      assert TextLetters([t[0]]) == [Text([t[0]])];
    }
  }

  ghost predicate ErrorFree(es: seq<Event>) {
    forall e :: e in es ==> !e.Error?
  }

  /** Both report errors, or both make the same calls. */
  ghost predicate Same(a: seq<Event>, b: seq<Event>) {
    (ErrorFree(a) <==> ErrorFree(b)) && (ErrorFree(a) ==> Letters(a) == Letters(b))
  }

  lemma SameSum(a: seq<Event>, b: seq<Event>, c: seq<Event>, d: seq<Event>)
    requires Same(a, b) && Same(c, d)
    ensures Same(a + c, b + d)
  {
    LettersSum(a, c);
    LettersSum(b, d);
    assert ErrorFree(a + c) <==> ErrorFree(a) && ErrorFree(c) by { ErrorFreeSum(a, c); }
    assert ErrorFree(b + d) <==> ErrorFree(b) && ErrorFree(d) by { ErrorFreeSum(b, d); }
  }

  lemma ErrorFreeSum(a: seq<Event>, b: seq<Event>)
    ensures ErrorFree(a + b) <==> ErrorFree(a) && ErrorFree(b)
  {
    assert forall e :: e in a + b <==> e in a || e in b;
  }

  lemma SameText(t: string)
    ensures Same([Text(t)], TextLetters(t))
  {
    LettersOfText(t);
    LettersOfLetters(t);
  }

  lemma OnePassLetter(c: char, rest: string, specs: SpecParser)
    requires c != '{' && c != '}'
    ensures OnePass([c] + rest, specs) == [Text([c])] + OnePass(rest, specs)
  {
    assert ([c] + rest)[1..] == rest;
  }

  lemma OnePassClosing(rest: string, specs: SpecParser)
    ensures OnePass("}}" + rest, specs) == [Text("}")] + OnePass(rest, specs)
  {
    assert ("}}" + rest)[2..] == rest;
  }

  lemma FirstLetter(t: string, rest: string)
    requires t != ""
    ensures [t[0]] + (t[1..] + rest) == t + rest
    ensures TextLetters(t) == [Text([t[0]])] + TextLetters(t[1..])
  {
  }

  /** Characters that are no braces. */
  lemma {:induction false} OnePassRun(t: string, rest: string, specs: SpecParser)
    requires '{' !in t && '}' !in t
    ensures OnePass(t + rest, specs) == TextLetters(t) + OnePass(rest, specs)
  {
    if t == "" {
      assert t + rest == rest;
    } else {
      OnePassRun(t[1..], rest, specs);
      OnePassLetter(t[0], t[1..] + rest, specs);
      FirstLetter(t, rest);
      Sequences.Assoc([Text([t[0]])], TextLetters(t[1..]), OnePass(rest, specs));
    }
  }

  /** Text up to and including a doubled closing brace. */
  lemma OnePassPiece(t: string, rest: string, specs: SpecParser)
    requires '{' !in t && '}' !in t
    ensures OnePass(t + "}}" + rest, specs) == TextLetters(t + "}") + OnePass(rest, specs)
  {
    OnePassRun(t, "}}" + rest, specs);
    OnePassClosing(rest, specs);
    Sequences.Assoc(t, "}}", rest);
    assert TextLetters(t + "}") == TextLetters(t) + [Text("}")];
    Sequences.Assoc(TextLetters(t), [Text("}")], OnePass(rest, specs));
  }

  /** One chunk of text in front of an opening brace or the end. */
  lemma {:induction false} WriterIsOnePass(s: string, rest: string, specs: SpecParser)
    requires '{' !in s && (rest == "" || rest[0] == '{')
    ensures Same(Pieces(s) + OnePass(rest, specs), OnePass(s + rest, specs))
    decreases |s|
  {
    var p := Find(s, '}');
    var t, after := s[..p], OnePass(rest, specs);
    if p == |s| {
      OnePassRun(s, rest, specs);
      SameText(s);
      SameSum([Text(s)], TextLetters(s), after, after);
    } else if p + 1 < |s| && s[p + 1] == '}' {
      var s' := s[p + 2..];
      WriterIsOnePass(s', rest, specs);
      OnePassPiece(t, s' + rest, specs);
      SplitAtDouble(s, p, rest);
      assert Pieces(s) == [Text(t + "}")] + Pieces(s');
      SameText(t + "}");
      SameSum([Text(t + "}")], TextLetters(t + "}"), Pieces(s') + after, OnePass(s' + rest, specs));
      Sequences.Assoc([Text(t + "}")], Pieces(s'), after);
    } else {
      WriterStops(s, p, rest, specs);
    }
  }

  lemma SplitAtDouble(s: string, p: nat, rest: string)
    requires p + 1 < |s| && s[p] == s[p + 1] == '}'
    ensures s + rest == s[..p] + "}}" + (s[p + 2..] + rest)
    ensures s[..p + 1] == s[..p] + "}"
  {
  }

  lemma WriterStops(s: string, p: nat, rest: string, specs: SpecParser)
    requires '{' !in s && (rest == "" || rest[0] == '{')
    requires p < |s| && s[p] == '}' && '}' !in s[..p] && (p + 1 == |s| || s[p + 1] != '}')
    ensures !ErrorFree([Error(UnmatchedBrace)] + OnePass(rest, specs))
    ensures !ErrorFree(OnePass(s + rest, specs))
  {
    var t, tail, after := s[..p], s[p..], OnePass(rest, specs);
    OnePassRun(t, tail + rest, specs);
    StopsAtBrace(tail, rest, specs);
    Split(s, p, rest);
    HoldsError([], UnmatchedBrace, after);
    HoldsError(TextLetters(t), UnmatchedBrace, after);
  }

  lemma Split(s: string, p: nat, rest: string)
    requires p <= |s|
    ensures s + rest == s[..p] + (s[p..] + rest)
  {
  }

  lemma HoldsError(a: seq<Event>, p: Problem, b: seq<Event>)
    ensures !ErrorFree(a + ([Error(p)] + b))
    ensures a == [] ==> !ErrorFree([Error(p)] + b)
  {
    assert (a + ([Error(p)] + b))[|a|] == Error(p);
    assert a == [] ==> a + ([Error(p)] + b) == [Error(p)] + b;
  }

  lemma StopsAtBrace(tail: string, rest: string, specs: SpecParser)
    requires '{' !in tail && (rest == "" || rest[0] == '{')
    requires tail != "" && tail[0] == '}' && (|tail| == 1 || tail[1] != '}')
    ensures OnePass(tail + rest, specs) == [Error(UnmatchedBrace)] + OnePass(rest, specs)
  {
    var s := tail[1..] + rest;
    assert (tail + rest)[1..] == s;
    FindIs(s, '{', |tail| - 1);
    assert s[|tail| - 1..] == rest;
  }

  lemma {:induction false} FindIs(s: string, c: char, n: nat)
    requires n <= |s| && c !in s[..n] && (n < |s| ==> s[n] == c)
    ensures Find(s, c) == n
  {
    if n > 0 {
      assert s[..n][0] == s[0];
      assert s[1..][..n - 1] == s[..n][1..];
      FindIs(s[1..], c, n - 1);
    }
  }

  /** Searching for one brace and then for the other finds what a single pass finds. */
  lemma {:induction false} TwoPassesAreOne(s: string, specs: SpecParser)
    ensures Same(Calls(s, specs), OnePass(s, specs))
    decreases |s|
  {
    var n := Find(s, '{');
    var text, rest := s[..n], s[n..];
    Sequences.Cut(s, n);
    var parsed := if n == |s| then [] else CallsAfterBrace(s[n + 1..], specs);
    if n < |s| {
      BraceIsOnePass(rest, s[n + 1..], specs);
    }
    TextIsOnePass(s, text, rest, parsed, specs);
    CallsAre(s, n, text, parsed, specs);
  }

  lemma CallsAre(s: string, n: nat, text: string, parsed: seq<Event>, specs: SpecParser)
    requires n == Find(s, '{') && text == s[..n]
    requires parsed == if n == |s| then [] else CallsAfterBrace(s[n + 1..], specs)
    ensures Calls(s, specs) == WriteText(text) + parsed
  {
  }

  lemma TextIsOnePass(s: string, text: string, rest: string, parsed: seq<Event>, specs: SpecParser)
    requires s == text + rest && '{' !in text && (rest == "" || rest[0] == '{') && Same(parsed, OnePass(rest, specs))
    ensures Same(WriteText(text) + parsed, OnePass(s, specs))
  {
    SameSum(WriteText(text), WriteText(text), parsed, OnePass(rest, specs));
    if text != "" {
      WriterIsOnePass(text, rest, specs);
    } else {
      assert text + rest == rest;
      assert WriteText(text) + OnePass(rest, specs) == OnePass(rest, specs);
    }
  }

  lemma {:induction false} BraceIsOnePass(rest: string, s: string, specs: SpecParser)
    requires rest != "" && rest[0] == '{' && rest[1..] == s
    ensures Same(CallsAfterBrace(s, specs), OnePass(rest, specs))
    decreases |s|
  {
    var step := Field(s, specs);
    if step.rest.Some? {
      TwoPassesAreOne(step.rest.value, specs);
      SameSum(step.events, step.events, Calls(step.rest.value, specs), OnePass(step.rest.value, specs));
    }
  }

  // ----- printing calls as a format string -----

  function EscapeChar(c: char): string {
    if c == '{' then "{{" else if c == '}' then "}}" else [c]
  }

  /** A text with each brace doubled. */
  function Escape(text: string): string {
    if text == "" then "" else EscapeChar(text[0]) + Escape(text[1..])
  }

  function UnparseOne(e: Event): string {
    match e
    case Text(text) => Escape(text)
    case AutoId => "{"
    case IndexId(index) => "{" + Format(index)
    case NameId(name) => "{" + name
    case Replacement => "}"
    case Specs(specs) => ":" + specs + "}"
    case Error(_) => ""
  }

  function Unparse(es: seq<Event>): string {
    if es == [] then "" else UnparseOne(es[0]) + Unparse(es[1..])
  }

  lemma {:induction false} UnparseSum(a: seq<Event>, b: seq<Event>)
    ensures Unparse(a + b) == Unparse(a) + Unparse(b)
  {
    if a == [] {
      assert a + b == b;
    } else {
      var first, rest := a[0], a[1..];
      UnparseSum(rest, b);
      UnparseFirst(first, rest + b);
      Sequences.Front(a, b);
      Sequences.Assoc(UnparseOne(first), Unparse(rest), Unparse(b));
    }
  }

  lemma UnparseFirst(e: Event, es: seq<Event>)
    ensures Unparse([e] + es) == UnparseOne(e) + Unparse(es)
  {
    assert ([e] + es)[1..] == es;
  }

  lemma UnparseSingle(e: Event)
    ensures Unparse([e]) == UnparseOne(e)
  {
    assert [e][1..] == [];
  }

  lemma EscapeOne(c: char)
    ensures Escape([c]) == EscapeChar(c)
  {
    assert [c][1..] == "";
  }

  lemma {:induction false} UnparseTextLetters(t: string)
    ensures Unparse(TextLetters(t)) == Escape(t)
  {
    if t != "" {
      var first := Text([t[0]]);
      FirstLetter(t, "");
      UnparseTextLetters(t[1..]);
      UnparseSum([first], TextLetters(t[1..]));
      UnparseSingle(first);
      EscapeOne(t[0]);
    }
  }

  lemma {:induction false} UnparseLetters(es: seq<Event>)
    ensures Unparse(Letters(es)) == Unparse(es)
  {
    if es != [] {
      UnparseLetters(es[1..]);
      if es[0].Text? {
        UnparseTextLetters(es[0].text);
        UnparseSum(TextLetters(es[0].text), Letters(es[1..]));
      } else {
        UnparseSingle(es[0]);
        UnparseSum([es[0]], Letters(es[1..]));
      }
    }
  }

  // ----- identifiers -----

  /** A number that is read without an error was written without leading zeros. */
  lemma {:induction false} ReadDigits(s: string, value: nat)
    requires 0 < value
    ensures var (v, rest) := Digits(s, value); v <= MAX_INT ==> Format(value) + s == Format(v) + rest
  {
    if s != "" && IsDigit(s[0]) && value <= MAX_INT / 10 {
      var value' := value * 10 + DigitValue(s[0]);
      ReadDigits(s[1..], value');
      assert Format(value') == Format(value) + [s[0]];
      assert Format(value) + s == Format(value') + s[1..];
    }
  }

  lemma ReadNumber(s: string)
    requires s != "" && IsDigit(s[0])
    ensures var (v, rest) := NonnegativeInt(s); v <= MAX_INT ==> s == Format(v) + rest
  {
    if s[0] != '0' {
      ReadDigits(s[1..], DigitValue(s[0]));
    }
  }

  lemma {:induction false} WrittenDigits(n: nat, rest: string)
    requires n <= MAX_INT
    ensures Digits(Format(n) + rest, 0) == Digits(rest, n)
  {
    if n < 10 {
      assert (Format(n) + rest)[1..] == rest;
    } else {
      var last := [DigitChar(n % 10)];
      Sequences.Assoc(Format(n / 10), last, rest);
      assert (last + rest)[1..] == rest;
      WrittenDigits(n / 10, last + rest);
    }
  }

  lemma WrittenNumber(n: nat, rest: string)
    requires n <= MAX_INT && (rest == "" || !IsDigit(rest[0]))
    ensures var s := Format(n) + rest; s != "" && IsDigit(s[0]) && NonnegativeInt(s) == (n, rest)
  {
    WrittenDigits(n, rest);
    ParseFormat(n);
    assert (Format(n) + rest)[0] == Format(n)[0];
    if n == 0 {
      assert (Format(0) + rest)[1..] == rest;
    } else {
      FormatHasNoLeadingZero(n);
    }
  }

  lemma {:induction false} LargeDigits(n: nat, rest: string)
    requires n > MAX_INT
    ensures Digits(Format(n) + rest, 0).0 > MAX_INT
  {
    var last := [DigitChar(n % 10)];
    Sequences.Assoc(Format(n / 10), last, rest);
    assert (last + rest)[1..] == rest;
    if n / 10 <= MAX_INT {
      WrittenDigits(n / 10, last + rest);
    } else {
      LargeDigits(n / 10, last + rest);
    }
  }

  /** A number is taken if it has 31 bits, and is an error, whatever comes next, if it does not. */
  lemma NumberFitsExactly(n: nat, rest: string)
    requires rest != "" && Closes(rest)
    ensures var id := ArgId(Format(n) + rest).0;
      if n <= 2147483647 then id == [IndexId(n)] else id != [] && id[0] == Error(NumberTooBig)
  {
    ParseFormat(n);
    assert (Format(n) + rest)[0] == Format(n)[0];
    if n <= MAX_INT {
      WrittenNumber(n, rest);
    } else {
      FormatHasNoLeadingZero(n);
      LargeDigits(n, rest);
    }
  }

  lemma NumberId(s: string, index: nat, rest: string)
    requires s != "" && IsDigit(s[0]) && NonnegativeInt(s) == (index, rest) && index <= MAX_INT && Closes(rest)
    ensures ArgId(s) == ([IndexId(index)], rest)
  {
  }

  predicate NameChars(s: string) {
    forall i :: 0 <= i < |s| ==> IsNameStart(s[i]) || IsDigit(s[i])
  }

  predicate ValidId(e: Event) {
    match e
    case AutoId => true
    case IndexId(index) => index <= MAX_INT
    case NameId(name) => name != "" && IsNameStart(name[0]) && NameChars(name)
    case _ => false
  }

  lemma {:induction false} NameEndsAt(name: string, rest: string)
    requires NameChars(name) && (rest == "" || (!IsDigit(rest[0]) && !IsNameStart(rest[0])))
    ensures NameEnd(name + rest) == |name|
  {
    if name != "" {
      NameEndsAt(name[1..], rest);
      assert (name + rest)[1..] == name[1..] + rest;
    } else {
      assert name + rest == rest;
    }
  }

  /** Identifiers are read as they are written. */
  lemma WrittenId(e: Event, rest: string)
    requires ValidId(e) && Closes(rest)
    ensures var s := UnparseOne(e)[1..] + rest; s != "" && ArgId(s) == ([e], rest)
    ensures UnparseOne(e)[..1] == "{"
    ensures !e.AutoId? ==> var c := (UnparseOne(e)[1..] + rest)[0]; IsDigit(c) || IsNameStart(c)
  {
    match e
    case AutoId =>
      assert UnparseOne(e)[1..] + rest == rest;
    case IndexId(index) =>
      WrittenNumber(index, rest);
      assert UnparseOne(e)[1..] == Format(index);
      NumberId(Format(index) + rest, index, rest);
    case NameId(name) =>
      NameEndsAt(name, rest);
      assert UnparseOne(e)[1..] == name;
      assert (name + rest)[..|name|] == name && (name + rest)[|name|..] == rest;
  }

  /** And what is read is the text of the identifier. */
  lemma ReadId(s: string)
    requires s != ""
    ensures var (id, rest) := ArgId(s); ErrorFree(id) ==> |id| == 1 && "{" + s == UnparseOne(id[0]) + rest
  {
    var (id, rest) := ArgId(s);
    if !Closes(s) && IsDigit(s[0]) {
      ReadNumber(s);
      var (value, after) := NonnegativeInt(s);
      if value > MAX_INT {
        assert id[0].Error?;
      } else if Closes(after) {
        Sequences.Assoc("{", Format(value), after);
        assert id == [IndexId(value)];
      } else {
        assert id[0].Error?;
      }
    } else if !Closes(s) && IsNameStart(s[0]) {
      assert s == s[..NameEnd(s)] + s[NameEnd(s)..];
    } else if !Closes(s) {
      assert id[0].Error?;
    }
  }

  // ----- what is read is what was written -----

  lemma UnparseTwo(a: Event, b: Event)
    ensures Unparse([a, b]) == UnparseOne(a) + UnparseOne(b)
  {
    UnparseFirst(a, [b]);
    UnparseSingle(b);
    assert [a, b] == [a] + [b];
  }

  lemma ReadField(s: string, specs: SpecParser)
    requires ErrorFree(Field(s, specs).events)
    ensures var step := Field(s, specs); step.rest.Some? && "{" + s == Unparse(step.events) + step.rest.value
  {
    if s != "" && s[0] == '}' {
      UnparseTwo(AutoId, Replacement);
    } else if s != "" && s[0] == '{' {
      UnparseSingle(Text("{"));
      EscapeOne('{');
    } else {
      ReadFieldWithId(s, specs);
    }
  }

  lemma ReadFieldWithId(s: string, specs: SpecParser)
    requires ErrorFree(Field(s, specs).events) && (s == "" || (s[0] != '}' && s[0] != '{'))
    ensures var step := Field(s, specs); step.rest.Some? && "{" + s == Unparse(step.events) + step.rest.value
  {
    var step := Field(s, specs);
    var (id, rest) := ArgId(s);
    assert forall e :: e in id ==> e in step.events;
    ReadId(s);
    if rest[0] == '}' {
      ReadClose(rest);
      UnparseTwo(id[0], Replacement);
      Sequences.Assoc(UnparseOne(id[0]), "}", rest[1..]);
    } else {
      var k := specs(rest[1..]);
      ReadSpecs(rest, k);
      var e := Specs(rest[1..][..k]);
      UnparseTwo(id[0], e);
      Sequences.Assoc(UnparseOne(id[0]), UnparseOne(e), step.rest.value);
    }
  }

  lemma ReadClose(s: string)
    requires s != "" && s[0] == '}'
    ensures s == "}" + s[1..]
  {
  }

  lemma ReadSpecs(s: string, k: nat)
    requires k + 1 < |s| && s[0] == ':' && s[k + 1] == '}'
    ensures s[1..][k..] == s[k + 1..]
    ensures s == UnparseOne(Specs(s[1..][..k])) + s[1..][k..][1..]
  {
  }

  lemma {:induction false} OnePassIsUnparsed(s: string, specs: SpecParser)
    requires ErrorFree(OnePass(s, specs))
    ensures Unparse(OnePass(s, specs)) == s
    decreases |s|
  {
    if s == "" {
    } else if s[0] == '{' {
      var step := Field(s[1..], specs);
      BraceIsUnparsed(s[1..], specs);
    } else {
      LetterIsUnparsed(s, specs);
    }
  }

  lemma {:induction false} BraceIsUnparsed(s: string, specs: SpecParser)
    requires ErrorFree(OnePassBrace(s, specs))
    ensures Unparse(OnePassBrace(s, specs)) == "{" + s
    decreases |s|
  {
    var step := Field(s, specs);
    var events := if step.rest.Some? then OnePass(step.rest.value, specs) else [];
    ErrorFreeSum(step.events, events);
    ReadField(s, specs);
    OnePassIsUnparsed(step.rest.value, specs);
    UnparseSum(step.events, events);
  }

  lemma {:induction false} LetterIsUnparsed(s: string, specs: SpecParser)
    requires s != "" && s[0] != '{'
    ensures ErrorFree(OnePass(s, specs)) ==> Unparse(OnePass(s, specs)) == s
    decreases |s|, 0
  {
    if s[0] == '}' && (|s| == 1 || s[1] != '}') {
      assert OnePass(s, specs)[0].Error?;
    } else {
      var text, n := Text([s[0]]), |EscapeChar(s[0])|;
      var rest := OnePass(s[n..], specs);
      UnparseSingle(text);
      EscapeOne(s[0]);
      ErrorFreeSum([text], rest);
      if ErrorFree(rest) {
        OnePassIsUnparsed(s[n..], specs);
      }
      UnparseSum([text], rest);
      Sequences.Cut(s, n);
    }
  }

  /** A format string without an error is the printed form of the calls it makes. */
  lemma ErrorFreeIsUnparsed(s: string, specs: SpecParser)
    requires ErrorFree(Calls(s, specs))
    ensures Unparse(Calls(s, specs)) == s
  {
    TwoPassesAreOne(s, specs);
    OnePassIsUnparsed(s, specs);
    UnparseLetters(Calls(s, specs));
    UnparseLetters(OnePass(s, specs));
  }

  /** The handler's parser takes exactly this text in front of a closing brace. */
  ghost predicate Reads(specs: SpecParser, text: string) {
    forall rest: string :: specs(text + "}" + rest) == |text|
  }

  /** Texts, and identifiers that are each followed by a replacement or by specifications. */
  ghost predicate WellFormed(es: seq<Event>, specs: SpecParser) {
    if es == [] then true
    else if es[0].Text? then WellFormed(es[1..], specs)
    else
      && ValidId(es[0]) && |es| > 1 && (es[1].Replacement? || (es[1].Specs? && Reads(specs, es[1].specs)))
      && WellFormed(es[2..], specs)
  }

  /** Printed calls are read back. */
  lemma WrittenField(id: Event, e: Event, rest: string, specs: SpecParser)
    requires ValidId(id) && (e.Replacement? || (e.Specs? && Reads(specs, e.specs)))
    ensures var s := UnparseOne(id) + (UnparseOne(e) + rest);
      s[0] == '{' && Field(s[1..], specs) == Step([id, e], Some(rest))
  {
    var tail := UnparseOne(e) + rest;
    WrittenId(id, tail);
    Tail(UnparseOne(id), tail);
    if e.Replacement? {
      FieldCloses(UnparseOne(id)[1..] + tail, id, rest, specs);
    } else {
      FieldHasSpecs(UnparseOne(id)[1..] + tail, id, e.specs, rest, specs);
    }
  }

  lemma Tail(a: string, b: string)
    requires a != ""
    ensures (a + b)[0] == a[0] && (a + b)[1..] == a[1..] + b
    ensures |a| == 1 ==> a[1..] + b == b
  {
  }

  lemma FieldCloses(s: string, id: Event, rest: string, specs: SpecParser)
    requires s != "" && ArgId(s) == ([id], "}" + rest)
    requires if id.AutoId? then s == "}" + rest else s[0] != '}' && s[0] != '{'
    ensures Field(s, specs) == Step([id, Replacement], Some(rest))
  {
    assert ("}" + rest)[1..] == rest;
    assert [id] + [Replacement] == [id, Replacement];
  }

  lemma FieldHasSpecs(s: string, id: Event, text: string, rest: string, specs: SpecParser)
    requires s != "" && ArgId(s) == ([id], ":" + text + "}" + rest) && s[0] != '}' && s[0] != '{' && Reads(specs, text)
    ensures Field(s, specs) == Step([id, Specs(text)], Some(rest))
  {
    SpecsText(text, rest);
    assert [id] + [Specs(text)] == [id, Specs(text)];
  }

  lemma SpecsText(text: string, rest: string)
    ensures var after := ":" + text + "}" + rest;
      && after[1..] == text + "}" + rest && after[1..][..|text|] == text
      && after[1..][|text|..] == "}" + rest && after[1..][|text|..][1..] == rest
  {
  }

  lemma {:induction false} EscapedRun(t: string, rest: string, specs: SpecParser)
    ensures OnePass(Escape(t) + rest, specs) == TextLetters(t) + OnePass(rest, specs)
  {
    if t == "" {
      assert Escape(t) + rest == rest;
    } else {
      EscapedRun(t[1..], rest, specs);
      Sequences.Assoc(EscapeChar(t[0]), Escape(t[1..]), rest);
      EscapedLetter(t[0], Escape(t[1..]) + rest, specs);
      FirstLetter(t, rest);
      Sequences.Assoc([Text([t[0]])], TextLetters(t[1..]), OnePass(rest, specs));
    }
  }

  lemma EscapedLetter(c: char, rest: string, specs: SpecParser)
    ensures OnePass(EscapeChar(c) + rest, specs) == [Text([c])] + OnePass(rest, specs)
  {
    if c == '}' {
      OnePassClosing(rest, specs);
    } else if c == '{' {
      assert ("{{" + rest)[1..] == "{" + rest;
      assert ("{" + rest)[1..] == rest;
    } else {
      OnePassLetter(c, rest, specs);
    }
  }

  lemma {:induction false} OnePassOfWritten(es: seq<Event>, specs: SpecParser)
    requires WellFormed(es, specs)
    ensures Same(es, OnePass(Unparse(es), specs))
    decreases |es|
  {
    if es == [] {
    } else if es[0].Text? {
      OnePassOfWritten(es[1..], specs);
      OnePassOfText(es[0].text, es[1..], specs);
      Sequences.Cut(es, 1);
    } else {
      OnePassOfWritten(es[2..], specs);
      OnePassOfField(es[0], es[1], es[2..], specs);
      CutTwo(es);
    }
  }

  lemma CutTwo<T>(s: seq<T>)
    requires |s| >= 2
    ensures s == [s[0], s[1]] + s[2..]
  {
  }

  lemma OnePassOfText(t: string, rest: seq<Event>, specs: SpecParser)
    requires Same(rest, OnePass(Unparse(rest), specs))
    ensures Same([Text(t)] + rest, OnePass(Unparse([Text(t)] + rest), specs))
  {
    EscapedRun(t, Unparse(rest), specs);
    UnparseFirst(Text(t), rest);
    SameText(t);
    SameSum([Text(t)], TextLetters(t), rest, OnePass(Unparse(rest), specs));
  }

  lemma OnePassOfField(id: Event, e: Event, rest: seq<Event>, specs: SpecParser)
    requires ValidId(id) && (e.Replacement? || (e.Specs? && Reads(specs, e.specs)))
    requires Same(rest, OnePass(Unparse(rest), specs))
    ensures Same([id, e] + rest, OnePass(Unparse([id, e] + rest), specs))
  {
    WrittenField(id, e, Unparse(rest), specs);
    UnparseTwo(id, e);
    UnparseSum([id, e], rest);
    Sequences.Assoc(UnparseOne(id), UnparseOne(e), Unparse(rest));
    SameSum([id, e], [id, e], rest, OnePass(Unparse(rest), specs));
  }

  /** Printing any well-formed calls and parsing the result makes the same calls again. */
  lemma WrittenIsParsed(es: seq<Event>, specs: SpecParser)
    requires WellFormed(es, specs)
    ensures Same(es, Calls(Unparse(es), specs))
  {
    OnePassOfWritten(es, specs);
    TwoPassesAreOne(Unparse(es), specs);
  }

  // ----- plain text -----

  ghost predicate AllText(es: seq<Event>) {
    forall e :: e in es ==> e.Text?
  }

  function TextOf(es: seq<Event>): string {
    if es == [] then "" else (if es[0].Text? then es[0].text else "") + TextOf(es[1..])
  }

  lemma {:induction false} EscapeSum(a: string, b: string)
    ensures Escape(a + b) == Escape(a) + Escape(b)
  {
    if a == "" {
      assert a + b == b;
    } else {
      EscapeSum(a[1..], b);
      Sequences.Front(a, b);
      assert (a + b)[1..] == a[1..] + b;
      Sequences.Assoc(EscapeChar(a[0]), Escape(a[1..]), Escape(b));
    }
  }

  lemma {:induction false} UnparseAllText(es: seq<Event>)
    requires AllText(es)
    ensures Unparse(es) == Escape(TextOf(es))
    ensures ErrorFree(es) && Letters(es) == TextLetters(TextOf(es))
  {
    if es != [] {
      UnparseAllText(es[1..]);
      var t, rest := es[0].text, TextOf(es[1..]);
      EscapeSum(t, rest);
      TextLettersSum(t, rest);
    }
  }

  lemma TextLettersSum(a: string, b: string)
    ensures TextLetters(a + b) == TextLetters(a) + TextLetters(b)
  {
  }

  /** A text with doubled braces makes no call but for its text, whose pieces add up to it. */
  lemma EscapedIsText(t: string, specs: SpecParser)
    ensures AllText(Calls(Escape(t), specs)) && TextOf(Calls(Escape(t), specs)) == t
  {
    var es := Calls(Escape(t), specs);
    UnparseSingle(Text(t));
    WrittenIsParsed([Text(t)], specs);
    LettersOfText(t);
    LettersAllText(es);
    UnparseAllText(es);
    SameLetters(t, TextOf(es));
  }

  lemma SameLetters(a: string, b: string)
    requires TextLetters(a) == TextLetters(b)
    ensures a == b
  {
    assert |a| == |TextLetters(a)| == |b|;
    assert forall i :: 0 <= i < |a| ==> TextLetters(a)[i] == Text([a[i]]) && TextLetters(b)[i] == Text([b[i]]);
  }

  lemma {:induction false} LettersAllText(es: seq<Event>)
    ensures forall e :: e in es && !e.Text? ==> e in Letters(es)
  {
    if es != [] {
      LettersAllText(es[1..]);
      assert forall e :: e in Letters(es[1..]) ==> e in Letters(es);
      Sequences.Cut(es, 1);
    }
  }

  /** And only such texts do: a format string is plain text exactly if its text, escaped, is the string. */
  lemma TextExactly(s: string, specs: SpecParser)
    ensures AllText(Calls(s, specs)) <==> s == Escape(TextOf(Calls(s, specs)))
  {
    var es := Calls(s, specs);
    if AllText(es) {
      UnparseAllText(es);
      ErrorFreeIsUnparsed(s, specs);
    }
    if s == Escape(TextOf(es)) {
      EscapedIsText(TextOf(es), specs);
    }
  }

  /** Plain texts are exactly the texts with doubled braces. */
  lemma PlainTextsAreEscaped(s: string, specs: SpecParser)
    ensures AllText(Calls(s, specs)) <==> exists t :: s == Escape(t)
  {
    TextExactly(s, specs);
    if AllText(Calls(s, specs)) {
      assert s == Escape(TextOf(Calls(s, specs)));
    } else {
      forall t ensures s != Escape(t) {
        EscapedIsText(t, specs);
      }
    }
  }

  // ----- the parser over positions -----

  /** A field that ends before it begins, or that begins with what is no identifier. */
  lemma FieldWithoutId(c: char, rest: string, specs: SpecParser)
    requires c != '{' && !Closes([c]) && !IsDigit(c) && !IsNameStart(c)
    ensures Field("", specs) == Step([Error(InvalidFormat)], None)
    ensures Field([c] + rest, specs) == Step([Error(InvalidFormat), Error(MissingBrace)], None)
  {
    assert ArgId([c] + rest) == ([Error(InvalidFormat)], [c] + rest);
  }

  /** A field that ends behind its identifier, or goes on there with another character. */
  lemma FieldNotClosed(n: nat, name: string, rest: string, specs: SpecParser)
    requires n <= MAX_INT && name != "" && IsNameStart(name[0]) && NameChars(name)
    requires !Closes(rest) && (rest == "" || (!IsDigit(rest[0]) && !IsNameStart(rest[0])))
    ensures Field(name + rest, specs) == Step([NameId(name), Error(MissingBrace)], None)
    ensures Field(Format(n) + rest, specs) == Step([Error(InvalidFormat), Error(MissingBrace)], None)
  {
    NameEndsAt(name, rest);
    assert (name + rest)[0] == name[0] && (name + rest)[..|name|] == name && (name + rest)[|name|..] == rest;
    assert ArgId(name + rest) == ([NameId(name)], rest);
    WrittenNumber(n, rest);
    assert ArgId(Format(n) + rest) == ([Error(InvalidFormat)], rest);
  }

  /** A closing brace that is not doubled. */
  lemma BraceAlone(text: string, rest: string, specs: SpecParser)
    requires '{' !in text && '}' !in text && (rest == "" || rest[0] != '}')
    ensures Pieces(text + "}" + rest) == [Error(UnmatchedBrace)]
  {
    var s := text + "}" + rest;
    assert s[..|text|] == text && s[|text|] == '}';
    assert rest != "" ==> s[|text| + 1] == rest[0];
    FindIs(s, '}', |text|);
  }

  class Parser {
    const format: string
    const specs: SpecParser
    var events: seq<Event>

    constructor (format: string, specs: SpecParser)
      ensures this.format == format && this.specs == specs && events == []
    {
      this.format, this.specs, events := format, specs, [];
    }

    /** Passes on text, in pieces that each end with the first of two closing braces. */
    method Write(from: nat, end: nat)
      requires from <= end <= |format|
      modifies this`events
      ensures events == old(events) + WriteText(format[from..end])
    {
      if from == end {
        return;
      }
      var begin, more := from, true;
      ghost var all := events + Pieces(format[from..end]);
      while more
        invariant from <= begin <= end
        invariant all == if more then events + Pieces(format[begin..end]) else events
        decreases more, end - begin
      {
        more, begin := WritePiece(begin, end);
      }
    }

    method WritePiece(begin: nat, end: nat) returns (more: bool, next: nat)
      requires begin <= end <= |format|
      modifies this`events
      ensures more ==> begin < next
      ensures begin <= next <= end
      ensures old(events) + Pieces(format[begin..end]) == if more then events + Pieces(format[next..end]) else events
    {
      var p := begin + Find(format[begin..end], '}');
      PiecesAt(format, begin, p, end);
      more, next := PassOn(begin, p, end, Pieces(format[begin..end]));
    }

    /** The text up to a closing brace, if there is one, and what is wrong with it. */
    method PassOn(begin: nat, brace: nat, end: nat, ghost pieces: seq<Event>) returns (more: bool, next: nat)
      requires begin <= brace <= end <= |format| && pieces == PiecesFrom(format, begin, brace, end)
      modifies this`events
      ensures more ==> begin < next
      ensures begin <= next <= end
      ensures old(events) + pieces == if more then events + Pieces(format[next..end]) else events
    {
      if brace == end {
        events := events + [Text(format[begin..end])];
        return false, begin;
      }
      var p := brace + 1;
      if p == end || format[p] != '}' {
        events := events + [Error(UnmatchedBrace)];
        return false, begin;
      }
      Sequences.Assoc(events, [Text(format[begin..p])], Pieces(format[p + 1..end]));
      events := events + [Text(format[begin..p])];
      return true, p + 1;
    }

    /** Reads digits until one more could exceed the range. */
    method ParseNonnegativeInt(begin: nat) returns (value: nat, it: nat)
      requires begin < |format| && IsDigit(format[begin])
      ensures begin < it <= |format| && value < 0x1_0000_0000
      ensures (value, format[it..]) == NonnegativeInt(format[begin..])
    {
      it := begin;
      assert format[begin..][1..] == format[begin + 1..];
      if format[it] == '0' {
        return 0, it + 1;
      }
      value := 0;
      while it < |format| && IsDigit(format[it])
        invariant begin <= it <= |format| && (it == begin ==> value == 0)
        invariant value <= MAX_INT / 10 * 10 + 9
        invariant Digits(format[it..], value) == Digits(format[begin..], 0)
      {
        if value > MAX_INT / 10 {
          value := MAX_INT + 1;
          return;
        }
        assert format[it..][1..] == format[it + 1..];
        value := value * 10 + DigitValue(format[it]);
        it := it + 1;
      }
    }

    method ParseArgId(begin: nat) returns (it: nat)
      requires begin < |format|
      modifies this`events
      ensures begin <= it <= |format|
      ensures var r := ArgId(format[begin..]); events == old(events) + r.0 && format[it..] == r.1
    {
      var c := format[begin];
      if c == '}' || c == ':' {
        events := events + [AutoId];
        return begin;
      }
      if IsDigit(c) {
        var index;
        index, it := ParseNonnegativeInt(begin);
        ghost var rest := format[it..];
        if index > MAX_INT {
          events := events + [Error(NumberTooBig)];
        }
        var closed := it < |format| && (format[it] == '}' || format[it] == ':');
        events := events + [if closed then IndexId(index) else Error(InvalidFormat)];
        return;
      }
      if !IsNameStart(c) {
        events := events + [Error(InvalidFormat)];
        return begin;
      }
      it := begin + NameEnd(format[begin..]);
      assert format[begin..it] == format[begin..][..it - begin];
      events := events + [NameId(format[begin..it])];
    }

    method ParseFormatString()
      requires events == []
      modifies this`events
      ensures events == Calls(format, specs)
    {
      var begin, more := 0, true;
      assert format[0..] == format;
      while more && begin < |format|
        invariant 0 <= begin <= |format|
        invariant Calls(format, specs) == events + if more then Calls(format[begin..], specs) else []
        decreases more, |format| - begin
      {
        more, begin := ParsePiece(begin);
      }
      NothingLeft(format, begin, specs);
    }

    /** Searches for '{', passes on the text in front of it, and takes the field behind it. */
    method ParsePiece(begin: nat) returns (more: bool, next: nat)
      requires begin < |format|
      modifies this`events
      ensures begin <= next <= |format| && (more ==> begin < next)
      ensures old(events) + Calls(format[begin..], specs) == events + if more then Calls(format[next..], specs) else []
    {
      var p := begin + Find(format[begin..], '{');
      CallsStep(format, begin, p, specs, events);
      more, next := ParseUpTo(begin, p);
    }

    method ParseUpTo(begin: nat, p: nat) returns (more: bool, next: nat)
      requires begin <= p <= |format|
      modifies this`events
      ensures begin <= next <= |format| && (more ==> begin < next)
      ensures old(events) + WriteText(format[begin..p]) + (if p == |format| then [] else CallsAfterBrace(format[p + 1..], specs))
           == events + if more then Calls(format[next..], specs) else []
    {
      Write(begin, p);
      if p == |format| {
        return false, begin;
      }
      more, next := ParseAfterBrace(p + 1);
      if !more {
        next := begin;
      }
    }

    method ParseAfterBrace(begin: nat) returns (more: bool, next: nat)
      requires begin <= |format|
      modifies this`events
      ensures more ==> begin < next <= |format|
      ensures old(events) + CallsAfterBrace(format[begin..], specs)
           == events + if more then Calls(format[next..], specs) else []
    {
      FieldStep(format[begin..], specs, events);
      more, next := ParseField(begin);
    }

    /** What follows an opening brace. */
    method ParseField(begin: nat) returns (more: bool, next: nat)
      requires begin <= |format|
      modifies this`events
      ensures var step := Field(format[begin..], specs);
        && events == old(events) + step.events && more == step.rest.Some?
        && (more ==> begin < next <= |format| && format[next..] == step.rest.value)
    {
      if begin == |format| {
        events := events + [Error(InvalidFormat)];
        return false, begin;
      }
      assert format[begin..][1..] == format[begin + 1..];
      if format[begin] == '}' {
        events := events + [AutoId, Replacement];
      } else if format[begin] == '{' {
        events := events + [Text("{")];
      } else {
        more, next := ParseArgument(begin);
        return;
      }
      return true, begin + 1;
    }

    method ParseArgument(begin: nat) returns (more: bool, next: nat)
      requires begin < |format| && format[begin] != '}' && format[begin] != '{'
      modifies this`events
      ensures var step := Field(format[begin..], specs);
        && events == old(events) + step.events && more == step.rest.Some?
        && (more ==> begin < next <= |format| && format[next..] == step.rest.value)
    {
      var p := ParseArgId(begin);
      more, next := ParseAfterId(p);
    }

    method ParseAfterId(begin: nat) returns (more: bool, next: nat)
      requires begin <= |format|
      modifies this`events
      ensures var step := AfterId(format[begin..], specs);
        && events == old(events) + step.events && more == step.rest.Some?
        && (more ==> begin < next <= |format| && format[next..] == step.rest.value)
    {
      var p := begin;
      if p < |format| && format[p] == '}' {
        events := events + [Replacement];
        return true, p + 1;
      }
      if p == |format| || format[p] != ':' {
        events := events + [Error(MissingBrace)];
        return false, p;
      }
      var text := format[p + 1..];
      assert format[p..][1..] == text;
      var k := specs(text);
      p := p + 1 + k;
      assert text[k..] == format[p..];
      if p == |format| || format[p] != '}' {
        events := events + [Specs(text[..k]), Error(UnknownSpecifier)];
        return false, p;
      }
      events := events + [Specs(text[..k])];
      return true, p + 1;
    }
  }

  /** The pieces of a text, by the position of its first closing brace. */
  function PiecesFrom(format: string, begin: nat, p: nat, end: nat): seq<Event>
    requires begin <= p <= end <= |format|
  {
    if p == end then [Text(format[begin..end])]
    else if p + 1 == end || format[p + 1] != '}' then [Error(UnmatchedBrace)]
    else [Text(format[begin..p + 1])] + Pieces(format[p + 2..end])
  }

  lemma PiecesAt(format: string, begin: nat, p: nat, end: nat)
    requires begin <= p <= end <= |format| && p == begin + Find(format[begin..end], '}')
    ensures Pieces(format[begin..end]) == PiecesFrom(format, begin, p, end)
  {
    var s, n := format[begin..end], p - begin;
    if p + 1 < end && format[p + 1] == '}' {
      PiecesGoOn(format, begin, p, end, s, n);
    } else {
      PiecesEnd(s, n);
    }
  }

  lemma PiecesGoOn(format: string, begin: nat, p: nat, end: nat, s: string, n: nat)
    requires begin <= p && p + 1 < end <= |format| && s == format[begin..end] && n == p - begin
    requires Find(s, '}') == n && format[p + 1] == '}'
    ensures Pieces(s) == [Text(format[begin..p + 1])] + Pieces(format[p + 2..end])
  {
    Sequences.Slice(format, begin, end, 0, n + 1);
    Sequences.Slice(format, begin, end, n + 2, end - begin);
    PiecesStep(s, n + 1, format[begin..p + 1], format[p + 2..end]);
  }

  lemma PiecesEnd(s: string, n: nat)
    requires n == Find(s, '}')
    ensures n == |s| ==> Pieces(s) == [Text(s)]
    ensures n < |s| && (n + 1 == |s| || s[n + 1] != '}') ==> Pieces(s) == [Error(UnmatchedBrace)]
  {
  }

  lemma PiecesStep(s: string, n: nat, piece: string, rest: string)
    requires n == Find(s, '}') + 1 && n < |s| && s[n] == '}' && piece == s[..n] && rest == s[n + 1..]
    ensures Pieces(s) == [Text(piece)] + Pieces(rest)
  {
  }

  lemma NothingLeft(format: string, begin: nat, specs: SpecParser)
    requires begin <= |format|
    ensures begin == |format| ==> Calls(format[begin..], specs) == []
  {
    assert begin == |format| ==> format[begin..] == "";
  }

  lemma CallsStep(format: string, begin: nat, p: nat, specs: SpecParser, events: seq<Event>)
    requires begin <= p <= |format| && p == begin + Find(format[begin..], '{')
    ensures events + Calls(format[begin..], specs)
         == events + WriteText(format[begin..p]) + if p == |format| then [] else CallsAfterBrace(format[p + 1..], specs)
  {
    var s, n := format[begin..], p - begin;
    var parsed := if p == |format| then [] else CallsAfterBrace(format[p + 1..], specs);
    Sequences.Slice(format, begin, |format|, 0, n);
    assert p < |format| ==> s[n + 1..] == format[p + 1..];
    CallsAre(s, n, format[begin..p], parsed, specs);
    Sequences.Assoc(events, WriteText(format[begin..p]), parsed);
  }

  lemma FieldStep(s: string, specs: SpecParser, events: seq<Event>)
    ensures var step := Field(s, specs);
      events + CallsAfterBrace(s, specs) == events + step.events + if step.rest.Some? then Calls(step.rest.value, specs) else []
  {
    var step := Field(s, specs);
    Sequences.Assoc(events, step.events, if step.rest.Some? then Calls(step.rest.value, specs) else []);
  }
}
