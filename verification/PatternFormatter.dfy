/** Log patterns: text with %-flags, each with an optional padding such as %-8l. */
module PatternFormatter {
  import opened Arith
  import opened Decimals
  import Sequences

  datatype Side = Left | Right | Center

  datatype Padding = Padding(width: nat, side: Side)

  /** What a pattern is compiled to. A flag with several spellings is named by one of them. */
  datatype Formatter =
    | Flag(kind: char, padding: Padding)
    | Percent
    | Aggregate(text: string)

  const MAX_WIDTH: nat := 128

  /** The flags, one spelling each. */
  predicate IsKind(c: char) {
    || c == '+' || c == 'n' || c == 'l' || c == 'L' || c == 't' || c == 'v' || c == 'a' || c == 'A' || c == 'b'
    || c == 'B' || c == 'c' || c == 'C' || c == 'Y' || c == 'D' || c == 'm' || c == 'd' || c == 'H' || c == 'I'
    || c == 'M' || c == 'S' || c == 'e' || c == 'f' || c == 'F' || c == 'E' || c == 'p' || c == 'r' || c == 'R'
    || c == 'T' || c == 'z' || c == 'P' || c == '^' || c == '$' || c == '@' || c == 's' || c == '#' || c == '!'
  }

  /** Three flags have a second spelling. */
  function Canonical(flag: char): char {
    match flag
    case 'h' => 'b'
    case 'x' => 'D'
    case 'X' => 'T'
    case _ => flag
  }

  function FormatterOf(flag: char, padding: Padding): Formatter {
    if flag == '%' then Percent
    else if IsKind(Canonical(flag)) then Flag(Canonical(flag), padding)
    else Aggregate(['%', flag])
  }

  /** The characters collected so far, if there are any. */
  function Chars(text: string): seq<Formatter> {
    if text == "" then [] else [Aggregate(text)]
  }

  // ----- the compiler as a function -----

  datatype Spec = Spec(padding: Padding, rest: string)

  /** The digits at the front, read into 64 bits. */
  function Width(s: string, width: nat): (r: (nat, string))
    ensures |r.1| <= |s| && (r.1 != "" ==> !IsDigit(r.1[0]))
    ensures |r.1| == |s| ==> r == (width, s)
  {
    if s == "" || !IsDigit(s[0]) then (width, s)
    else Width(s[1..], U64(width * 10 + DigitValue(s[0])))
  }

  function Min(a: nat, b: nat): nat {
    if a <= b then a else b
  }

  function PadSpec(s: string): (r: Spec)
    ensures |r.rest| <= |s| && r.padding.width <= MAX_WIDTH
    ensures r.rest != "" ==> !IsDigit(r.rest[0])
  {
    if s == "" then Spec(Padding(0, Left), s)
    else
      var side := if s[0] == '-' then Right else if s[0] == '=' then Center else Left;
      var (width, rest) := Width(if side == Left then s else s[1..], 0);
      Spec(Padding(Min(width, MAX_WIDTH), side), rest)
  }

  /** Compiling the rest of a pattern, with the characters collected since the last flag. */
  function CompileFrom(s: string, chars: string): seq<Formatter>
    decreases |s|
  {
    if s == "" then Chars(chars)
    else if s[0] != '%' then CompileFrom(s[1..], chars + [s[0]])
    else Chars(chars) + CompileFlag(s[1..])
  }

  /** After a percent sign: the padding and the flag; a pattern that ends before its flag ends there. */
  function CompileFlag(s: string): seq<Formatter>
    decreases |s|
  {
    var spec := PadSpec(s);
    if spec.rest == "" then []
    else [FormatterOf(spec.rest[0], spec.padding)] + CompileFrom(spec.rest[1..], "")
  }

  function Compile(pattern: string): seq<Formatter> {
    CompileFrom(pattern, "")
  }

  // ----- rendering formatters as a pattern -----

  function RenderPadding(p: Padding): string {
    MarkOf(p.side) + WidthText(p.width)
  }

  function RenderOne(f: Formatter): string {
    match f
    case Flag(kind, padding) => "%" + RenderPadding(padding) + [kind]
    case Percent => "%%"
    case Aggregate(text) =>
      if text == "%-" then "%=-"
      else if text == "%=" then "%-="
      else text
  }

  function Render(fs: seq<Formatter>): string {
    if fs == [] then "" else RenderOne(fs[0]) + Render(fs[1..])
  }

  /** An aggregate of ordinary characters, as opposed to an unknown flag. */
  predicate Plain(f: Formatter) {
    f.Aggregate? && f.text != "" && '%' !in f.text
  }

  predicate UnknownFlag(f: Formatter) {
    && f.Aggregate? && |f.text| == 2 && f.text[0] == '%'
    && f.text[1] != '%' && !IsKind(Canonical(f.text[1])) && !IsDigit(f.text[1])
  }

  predicate WellFormedOne(f: Formatter) {
    match f
    case Flag(kind, padding) => IsKind(kind) && padding.width <= MAX_WIDTH
    case Percent => true
    case Aggregate(text) => Plain(f) || UnknownFlag(f)
  }

  /** The lists a compiler can produce: two runs of ordinary characters are never adjacent. */
  predicate WellFormed(fs: seq<Formatter>) {
    || fs == []
    || (WellFormedOne(fs[0]) && WellFormed(fs[1..]) && !(Plain(fs[0]) && |fs| > 1 && Plain(fs[1])))
  }

  lemma KindsAreSimple(kind: char)
    requires IsKind(kind)
    ensures Canonical(kind) == kind && kind != '%' && kind != '-' && kind != '=' && !IsDigit(kind)
  {
  }

  // ----- printing and compiling undo each other -----

  /** Written digits are read back, reduced to 64 bits, whatever comes next. */
  lemma {:induction false} WidthOfDigits(n: nat, rest: string)
    ensures Width(Format(n) + rest, 0) == Width(rest, U64(n))
  {
    if n < 10 {
      WidthOfDigit(0, n, rest);
    } else {
      var last := [DigitChar(n % 10)];
      Sequences.Assoc(Format(n / 10), last, rest);
      WidthOfDigits(n / 10, last + rest);
      WidthOfDigit(U64(n / 10), n % 10, rest);
      OneMoreDigit(n / 10, n % 10);
    }
  }

  lemma WidthOfDigit(width: nat, d: nat, rest: string)
    requires d < 10
    ensures Width([DigitChar(d)] + rest, width) == Width(rest, U64(10 * width + d))
  {
    assert ([DigitChar(d)] + rest)[1..] == rest;
  }

  lemma OneMoreDigit(n: nat, d: nat)
    ensures U64(10 * U64(n) + d) == U64(10 * n + d)
  {
    assert 10 * n + d == (10 * (n / TWO64)) * TWO64 + (10 * U64(n) + d);
    SameRemainder(10 * U64(n) + d, 10 * (n / TWO64));
  }

  lemma SameRemainder(x: nat, k: nat)
    ensures U64(k * TWO64 + x) == U64(x)
  {
  }

  function WidthText(width: nat): string {
    if width == 0 then "" else Format(width)
  }

  function MarkOf(side: Side): string {
    match side case Left => "" case Right => "-" case Center => "="
  }

  /** A mark and digits, or neither, or one of them, are read as a side and a width. */
  lemma MarkedWidth(side: Side, digits: string, w: nat, rest: string, s: string)
    requires digits == Format(w) || (digits == "" && w == 0)
    requires rest != "" && !IsDigit(rest[0]) && (side == Left ==> rest[0] != '-' && rest[0] != '=')
    requires s == MarkOf(side) + digits + rest
    ensures PadSpec(s) == Spec(Padding(Min(U64(w), MAX_WIDTH), side), rest)
  {
    DigitsAreWidth(digits, w, rest, digits + rest);
    Sequences.Assoc(MarkOf(side), digits, rest);
    Behind(MarkOf(side), digits + rest, s);
  }

  lemma Behind(mark: string, rest: string, s: string)
    requires s == mark + rest
    ensures mark == "" ==> s == rest
    ensures |mark| == 1 ==> s[0] == mark[0] && s[1..] == rest
  {
  }

  lemma DigitsAreWidth(digits: string, w: nat, rest: string, s: string)
    requires (digits == Format(w) || (digits == "" && w == 0)) && s == digits + rest
    requires rest != "" && !IsDigit(rest[0])
    ensures Width(s, 0) == (U64(w), rest) && s != "" && (s[0] == rest[0] || IsDigit(s[0]))
  {
    if digits == "" {
      assert s == rest;
    } else {
      WidthOfDigits(w, rest);
      ParseFormat(w);
      assert s[0] == digits[0];
    }
  }

  lemma PadSpecOfRendered(p: Padding, rest: string)
    requires p.width <= MAX_WIDTH
    requires rest != "" && !IsDigit(rest[0]) && (p.side == Left ==> rest[0] != '-' && rest[0] != '=')
    ensures PadSpec(RenderPadding(p) + rest) == Spec(p, rest)
  {
    MarkedWidth(p.side, WidthText(p.width), p.width, rest, RenderPadding(p) + rest);
  }

  lemma {:induction false} CompilePlain(text: string, rest: string, chars: string)
    requires '%' !in text
    ensures CompileFrom(text + rest, chars) == CompileFrom(rest, chars + text)
  {
    if text == "" {
      assert text + rest == rest;
      assert chars + text == chars;
    } else {
      assert (text + rest)[1..] == text[1..] + rest;
      assert chars + text == chars + [text[0]] + text[1..];
      CompilePlain(text[1..], rest, chars + [text[0]]);
    }
  }

  lemma PercentStarts(s: string, chars: string)
    ensures CompileFrom("%" + s, chars) == Chars(chars) + CompileFlag(s)
  {
    assert ("%" + s)[1..] == s;
  }

  lemma FlagCompiles(flag: char, padding: Padding, rest: string, chars: string)
    requires padding.width <= MAX_WIDTH && !IsDigit(flag)
    requires padding.side == Left ==> flag != '-' && flag != '='
    ensures CompileFrom("%" + RenderPadding(padding) + [flag] + rest, chars)
         == Chars(chars) + ([FormatterOf(flag, padding)] + CompileFrom(rest, ""))
  {
    var spec, tail := RenderPadding(padding), [flag] + rest;
    PadSpecOfRendered(padding, tail);
    FlagBehind(spec + tail, flag, padding, rest);
    PercentStarts(spec + tail, chars);
    assert "%" + (spec + tail) == "%" + spec + [flag] + rest;
  }

  lemma FlagBehind(s: string, flag: char, padding: Padding, rest: string)
    requires PadSpec(s) == Spec(padding, [flag] + rest)
    ensures CompileFlag(s) == [FormatterOf(flag, padding)] + CompileFrom(rest, "")
  {
    assert ([flag] + rest)[1..] == rest;
  }

  /** One rendered formatter that is not a run of ordinary characters. */
  lemma CompileOne(f: Formatter, rest: string, chars: string)
    requires WellFormedOne(f) && !Plain(f)
    ensures CompileFrom(RenderOne(f) + rest, chars) == Chars(chars) + ([f] + CompileFrom(rest, ""))
  {
    match f
    case Flag(kind, padding) =>
      KindsAreSimple(kind);
      FlagCompiles(kind, padding, rest, chars);
    case Percent =>
      FlagCompiles('%', Padding(0, Left), rest, chars);
    case Aggregate(text) =>
      var padding := Padding(0, if text[1] == '-' then Center else if text[1] == '=' then Right else Left);
      FlagCompiles(text[1], padding, rest, chars);
      assert text == ['%', text[1]];
      assert RenderOne(f) == "%" + RenderPadding(padding) + [text[1]];
  }

  lemma {:induction false} RenderedCompiles(fs: seq<Formatter>, chars: string)
    requires WellFormed(fs) && (chars == "" || fs == [] || !Plain(fs[0]))
    ensures CompileFrom(Render(fs), chars) == Chars(chars) + fs
  {
    if fs != [] {
      var f, rest := fs[0], Render(fs[1..]);
      if Plain(f) {
        CompilePlain(f.text, rest, "");
        assert "" + f.text == f.text;
        RenderedCompiles(fs[1..], f.text);
        assert Chars("") + fs == fs;
      } else {
        CompileOne(f, rest, chars);
        RenderedCompiles(fs[1..], "");
        assert Chars("") + fs[1..] == fs[1..];
      }
      assert fs == [f] + fs[1..];
    }
  }

  /** Every list of the form a compiler can produce is produced from its own rendering. */
  lemma RenderThenCompile(fs: seq<Formatter>)
    requires WellFormed(fs)
    ensures Compile(Render(fs)) == fs
  {
    RenderedCompiles(fs, "");
  }

  lemma {:induction false} CompiledIsWellFormed(s: string, chars: string)
    requires '%' !in chars
    ensures WellFormed(CompileFrom(s, chars))
    decreases |s|
  {
    if s == "" {
      assert Chars(chars) == [] || Chars(chars)[1..] == [];
    } else if s[0] != '%' {
      CompiledIsWellFormed(s[1..], chars + [s[0]]);
    } else {
      var spec, tail := PadSpec(s[1..]), CompileFlag(s[1..]);
      if spec.rest != "" {
        CompiledIsWellFormed(spec.rest[1..], "");
        assert tail[1..] == CompileFrom(spec.rest[1..], "");
      }
      CharsBefore(chars, tail);
    }
  }

  lemma CharsBefore(chars: string, tail: seq<Formatter>)
    requires '%' !in chars && WellFormed(tail) && (tail == [] || !Plain(tail[0]))
    ensures WellFormed(Chars(chars) + tail)
  {
    assert chars != "" ==> (Chars(chars) + tail)[1..] == tail;
    assert chars == "" ==> Chars(chars) + tail == tail;
  }

  /**
   So the well-formed lists are exactly what patterns compile to, and every pattern has a
   rendering that compiles to the same formatters.
   */
  lemma CompileThenRender(pattern: string)
    ensures WellFormed(Compile(pattern))
    ensures Compile(Render(Compile(pattern))) == Compile(pattern)
  {
    CompiledIsWellFormed(pattern, "");
    RenderThenCompile(Compile(pattern));
  }

  // ----- formatting -----

  /** What a message prints for each flag; the four padded texts, and the other flags as they come. */
  datatype Message = Message(name: string, level: string, shortLevel: string, payload: string,
                             other: (char, Padding) -> string)

  function Blanks(n: nat): (s: string)
    ensures |s| == n
  {
    seq(n, i => ' ')
  }

  /** The blanks before a text of some size; when they do not come out even, the odd one goes behind. */
  function BlanksBefore(size: nat, p: Padding): nat {
    if p.width <= size then 0
    else match p.side
      case Left => p.width - size
      case Center => (p.width - size) / 2
      case Right => 0
  }

  function Padded(text: string, p: Padding): string {
    var before := BlanksBefore(|text|, p);
    Blanks(before) + text + Blanks(if p.width <= |text| then 0 else p.width - |text| - before)
  }

  /** A padded text takes its width or its own size, and holds the text between blanks. */
  lemma PaddedShape(text: string, p: Padding)
    ensures |Padded(text, p)| == if p.width <= |text| then |text| else p.width
    ensures var n, after := BlanksBefore(|text|, p), |Padded(text, p)| - |text| - BlanksBefore(|text|, p);
      && Padded(text, p)[n..n + |text|] == text
      && (p.side == Left ==> after == 0) && (p.side == Right ==> n == 0)
      && (p.side == Center ==> n <= after <= n + 1)
      && forall i :: 0 <= i < |Padded(text, p)| && !(n <= i < n + |text|) ==> Padded(text, p)[i] == ' '
  {
  }

  function Output(f: Formatter, msg: Message): string {
    match f
    case Aggregate(text) => text
    case Percent => "%"
    case Flag(kind, padding) =>
      match kind
      case 'n' => Padded(msg.name, padding)
      case 'l' => Padded(msg.level, padding)
      case 'L' => Padded(msg.shortLevel, padding)
      case 'v' => Padded(msg.payload, padding)
      case _ => msg.other(kind, padding)
  }

  function Outputs(fs: seq<Formatter>, msg: Message): string {
    if fs == [] then "" else Outputs(fs[..|fs| - 1], msg) + Output(fs[|fs| - 1], msg)
  }

  lemma {:induction false} OutputsSum(a: seq<Formatter>, b: seq<Formatter>, msg: Message)
    ensures Outputs(a + b, msg) == Outputs(a, msg) + Outputs(b, msg)
  {
    if b == [] {
      assert a + b == a;
    } else {
      assert (a + b)[..|a + b| - 1] == a + b[..|b| - 1];
      OutputsSum(a, b[..|b| - 1], msg);
    }
  }

  lemma OutputsOfChars(chars: string, msg: Message)
    ensures Outputs(Chars(chars), msg) == chars
  {
    if chars != "" {
      assert Chars(chars)[..0] == [];
    }
  }

  /** A text with each percent sign doubled. */
  function Escape(text: string): string {
    if text == "" then "" else (if text[0] == '%' then "%%" else [text[0]]) + Escape(text[1..])
  }

  /** Collected characters come out before everything else. */
  lemma {:induction false} CharsFirst(s: string, chars: string, msg: Message)
    ensures Outputs(CompileFrom(s, chars), msg) == chars + Outputs(CompileFrom(s, ""), msg)
  {
    OutputsOfChars(chars, msg);
    if s != "" && s[0] != '%' {
      CharsFirst(s[1..], chars + [s[0]], msg);
      CharsFirst(s[1..], "" + [s[0]], msg);
    } else if s != "" {
      OutputsSum(Chars(chars), CompileFlag(s[1..]), msg);
      assert Chars("") + CompileFlag(s[1..]) == CompileFlag(s[1..]);
    }
  }

  /** One escaped character in front of a pattern. */
  lemma EscapedCharacter(c: char, pattern: string, msg: Message)
    ensures Outputs(Compile((if c == '%' then "%%" else [c]) + pattern), msg) == [c] + Outputs(Compile(pattern), msg)
  {
    if c == '%' {
      CompileOne(Percent, pattern, "");
      assert Chars("") + ([Percent] + Compile(pattern)) == [Percent] + Compile(pattern);
      OutputsSum([Percent], Compile(pattern), msg);
      assert [Percent][..0] == [];
    } else {
      assert ([c] + pattern)[1..] == pattern;
      CharsFirst(pattern, "" + [c], msg);
    }
  }

  /** In front of any pattern, an escaped text prints itself and changes nothing of what follows. */
  lemma {:induction false} EscapedPrintsItself(text: string, pattern: string, msg: Message)
    ensures Outputs(Compile(Escape(text) + pattern), msg) == text + Outputs(Compile(pattern), msg)
  {
    if text == "" {
      assert Escape(text) + pattern == pattern;
    } else {
      var first, rest := (if text[0] == '%' then "%%" else [text[0]]), Escape(text[1..]);
      EscapedPrintsItself(text[1..], pattern, msg);
      EscapedCharacter(text[0], rest + pattern, msg);
      Sequences.Assoc(first, rest, pattern);
      Sequences.Assoc([text[0]], text[1..], Outputs(Compile(pattern), msg));
      assert text == [text[0]] + text[1..];
    }
  }

  /** An escaped text on its own is a pattern for exactly that text. */
  lemma EscapedText(text: string, msg: Message)
    ensures Outputs(Compile(Escape(text)), msg) == text
  {
    EscapedPrintsItself(text, "", msg);
    assert Escape(text) + "" == Escape(text);
  }

  // ----- what each flag prints -----

  /** A compiled flag prints its own output in front of what the rest prints. */
  lemma PrintsFirst(f: Formatter, rest: seq<Formatter>, msg: Message)
    ensures Outputs([f] + rest, msg) == Output(f, msg) + Outputs(rest, msg)
  {
    OutputsSum([f], rest, msg);
    assert [f][..0] == [] && "" + Output(f, msg) == Output(f, msg);
  }

  lemma FlagFirst(s: string, flag: char, padding: Padding, rest: string, msg: Message)
    requires PadSpec(s) == Spec(padding, [flag] + rest)
    ensures Outputs(Compile("%" + s), msg) == Output(FormatterOf(flag, padding), msg) + Outputs(Compile(rest), msg)
  {
    var f, tail := FormatterOf(flag, padding), CompileFrom(rest, "");
    FlagBehind(s, flag, padding, rest);
    PercentStarts(s, "");
    assert Chars("") + ([f] + tail) == [f] + tail;
    PrintsFirst(f, tail, msg);
  }

  /** The texts of a message that are printed padded. */
  predicate IsTextOf(flag: char, text: string, msg: Message) {
    || (flag == 'n' && text == msg.name) || (flag == 'l' && text == msg.level)
    || (flag == 'L' && text == msg.shortLevel) || (flag == 'v' && text == msg.payload)
  }

  /** A text among blanks: behind them, or with a mark in front of them or in their middle. */
  function Among(blanks: nat, mark: string, text: string): string {
    if mark == "-" then text + Blanks(blanks)
    else if mark == "=" then Blanks(blanks / 2) + text + Blanks(blanks - blanks / 2)
    else Blanks(blanks) + text
  }

  /**
   With or without a mark and a width, a text is printed among as many blanks as it is short of the
   width; the width is read modulo 64 bits, and is 128 at most.
   */
  lemma TextPrints(mark: string, digits: string, w: nat, flag: char, text: string, rest: string, msg: Message, s: string, n: nat)
    requires mark == "" || mark == "-" || mark == "="
    requires digits == Format(w) || (digits == "" && w == 0)
    requires IsTextOf(flag, text, msg) && s == mark + digits + ([flag] + rest)
    requires n == if w % TWO64 <= 128 then w % TWO64 else 128
    ensures Outputs(Compile("%" + s), msg) ==
      Among(if n <= |text| then 0 else n - |text|, mark, text) + Outputs(Compile(rest), msg)
  {
    var side := if mark == "-" then Right else if mark == "=" then Center else Left;
    var padding := Padding(n, side);
    FlagWithMark(side, mark, digits, w, flag, rest, s, n);
    FlagFirst(s, flag, padding, rest, msg);
    OutputOfText(flag, text, padding, msg);
    PaddedIsAmong(text, padding, mark);
  }

  lemma FlagWithMark(side: Side, mark: string, digits: string, w: nat, flag: char, rest: string, s: string, n: nat)
    requires digits == Format(w) || (digits == "" && w == 0)
    requires !IsDigit(flag) && flag != '-' && flag != '=' && s == mark + digits + ([flag] + rest)
    requires n == (if w % TWO64 <= 128 then w % TWO64 else 128) && mark == MarkOf(side)
    ensures PadSpec(s) == Spec(Padding(n, side), [flag] + rest)
  {
    MarkedWidth(side, digits, w, [flag] + rest, s);
  }

  lemma OutputOfText(flag: char, text: string, padding: Padding, msg: Message)
    requires IsTextOf(flag, text, msg)
    ensures Output(FormatterOf(flag, padding), msg) == Padded(text, padding)
  {
  }

  lemma PaddedIsAmong(text: string, p: Padding, mark: string)
    requires mark == MarkOf(p.side)
    ensures Padded(text, p) == Among(if p.width <= |text| then 0 else p.width - |text|, mark, text)
  {
    var blanks := if p.width <= |text| then 0 else p.width - |text|;
    var before := BlanksBefore(|text|, p);
    NoBlanks(text, Blanks(blanks));
    assert before <= blanks && Padded(text, p) == Blanks(before) + text + Blanks(blanks - before);
    if p.side == Left {
      assert before == blanks;
    } else if p.side == Right {
      assert before == 0;
    } else {
      assert before == blanks / 2;
    }
  }

  lemma NoBlanks(text: string, blanks: string)
    ensures Blanks(0) + text + blanks == text + blanks && blanks + text + Blanks(0) == blanks + text
  {
  }

  /** The other flags of the bundled spdlog. */
  const OTHER_FLAGS := "+taAbBcCYDmdHIMSefFEprRTzP^$@s#!"

  /** Two percent signs print one; an unknown flag prints itself; h, x and X stand for b, D and T. */
  lemma FlagPrints(flag: char, rest: string, msg: Message)
    requires flag != '-' && flag != '=' && !IsDigit(flag)
    ensures exists out ::
      PrintedFor(flag, out, msg) && Outputs(Compile("%" + ([flag] + rest)), msg) == out + Outputs(Compile(rest), msg)
  {
    var s, padding := [flag] + rest, Padding(0, Left);
    assert "" + "" + s == s;
    MarkedWidth(Left, "", 0, s, s);
    FlagFirst(s, flag, padding, rest, msg);
    KindsAre(flag, msg);
  }

  ghost predicate PrintedFor(flag: char, out: string, msg: Message) {
    && (flag == '%' ==> out == "%")
    && (flag in OTHER_FLAGS ==> out == msg.other(flag, Padding(0, Left)))
    && (flag == 'h' ==> out == msg.other('b', Padding(0, Left)))
    && (flag == 'x' ==> out == msg.other('D', Padding(0, Left)))
    && (flag == 'X' ==> out == msg.other('T', Padding(0, Left)))
    && (flag !in OTHER_FLAGS && flag !in "%nlLvhxX" ==> out == ['%', flag])
  }

  lemma KindsAre(flag: char, msg: Message)
    ensures PrintedFor(flag, Output(FormatterOf(flag, Padding(0, Left)), msg), msg)
  {
    assert "%nlLvhxX" == ['%', 'n', 'l', 'L', 'v', 'h', 'x', 'X'];
    KindsAreListed(flag);
    KindsAreListed(Canonical(flag));
  }

  lemma KindsAreListed(flag: char)
    ensures IsKind(flag) <==> flag in OTHER_FLAGS || flag == 'n' || flag == 'l' || flag == 'L' || flag == 'v'
    ensures flag in OTHER_FLAGS ==> flag != 'n' && flag != 'l' && flag != 'L' && flag != 'v'
    ensures flag in OTHER_FLAGS ==> flag != 'h' && flag != 'x' && flag != 'X' && flag != '%'
  {
  }

  // ----- the objects -----

  lemma FlagFollows(s: string, chars: string, formatters: seq<Formatter>)
    requires s != "" && s[0] == '%'
    ensures formatters + CompileFrom(s, chars) == formatters + Chars(chars) + CompileFlag(s[1..])
  {
    Sequences.Assoc(formatters, Chars(chars), CompileFlag(s[1..]));
  }

  class MemoryBuffer {
    var text: string

    constructor ()
      ensures text == ""
    {
      text := "";
    }

    method Append(s: string)
      modifies this
      ensures text == old(text) + s
    {
      text := text + s;
    }
  }

  /** Pads in front of a text when it is made, and behind it when it is closed. */
  class ScopedPad {
    const dest: MemoryBuffer
    var totalPad: nat

    constructor (size: nat, padding: Padding, dest: MemoryBuffer)
      requires padding.width <= MAX_WIDTH
      modifies dest
      ensures this.dest == dest
      ensures dest.text == old(dest.text) + Blanks(BlanksBefore(size, padding))
      ensures totalPad == if padding.width <= size then 0 else padding.width - size - BlanksBefore(size, padding)
      ensures totalPad <= MAX_WIDTH
    {
      this.dest := dest;
      totalPad := 0;
      new;
      if padding.width <= size {
        assert dest.text == old(dest.text) + Blanks(0);
        return;
      }
      totalPad := padding.width - size;
      if padding.side == Left {
        PadIt(totalPad);
        totalPad := 0;
      } else if padding.side == Center {
        var half, remainder := totalPad / 2, totalPad % 2;
        PadIt(half);
        totalPad := half + remainder;
      }
      assert padding.side == Right ==> dest.text == old(dest.text) + Blanks(0);
    }

    method PadIt(count: nat)
      requires count <= MAX_WIDTH
      modifies dest
      ensures dest.text == old(dest.text) + Blanks(count)
    {
      dest.Append(Blanks(MAX_WIDTH)[..count]);
    }

    method Close()
      requires totalPad <= MAX_WIDTH
      modifies dest
      ensures dest.text == old(dest.text) + Blanks(totalPad)
    {
      if totalPad != 0 {
        PadIt(totalPad);
      }
      assert totalPad == 0 ==> dest.text == old(dest.text) + Blanks(0);
    }
  }

  class PatternFormatter {
    const pattern: string
    const eol: string
    var formatters: seq<Formatter>

    constructor (pattern: string, eol: string)
      ensures this.pattern == pattern && this.eol == eol && formatters == Compile(pattern)
    {
      this.pattern := pattern;
      this.eol := eol;
      formatters := [];
      new;
      CompilePattern(pattern);
    }

    /** Moves past the padding at a position. */
    method HandlePadSpec(s: string, at: nat) returns (padding: Padding, it: nat)
      requires at <= |s|
      ensures at <= it <= |s| && PadSpec(s[at..]) == Spec(padding, s[it..])
    {
      it := at;
      if it == |s| {
        return Padding(0, Left), it;
      }
      var side := Left;
      match s[it] {
        case '-' => side, it := Right, it + 1;
        case '=' => side, it := Center, it + 1;
        case _ =>
      }
      ghost var digits := s[it..];
      assert digits == if side == Left then s[at..] else s[at..][1..];
      if it == |s| || !IsDigit(s[it]) {
        return Padding(0, side), it;
      }
      var width;
      width, it := ReadWidth(s, it);
      padding := Padding(Min(width, MAX_WIDTH), side);
    }

    /** The digits at a position, read into 64 bits. */
    method ReadWidth(s: string, at: nat) returns (width: nat, it: nat)
      requires at < |s| && IsDigit(s[at])
      ensures at < it <= |s| && Width(s[at..], 0) == (width, s[it..])
    {
      Sequences.Cut(s, at);
      width, it := DigitValue(s[at]), at + 1;
      while it < |s| && IsDigit(s[it])
        invariant at < it <= |s|
        invariant Width(s[it..], width) == Width(s[at..], 0)
      {
        Sequences.Cut(s, it);
        width := U64(width * 10 + DigitValue(s[it]));
        it := it + 1;
      }
    }

    method HandleFlag(flag: char, padding: Padding)
      modifies this`formatters
      ensures formatters == old(formatters) + [FormatterOf(flag, padding)]
    {
      formatters := formatters + [FormatterOf(flag, padding)];
    }

    method CompilePattern(pattern: string)
      modifies this`formatters
      ensures formatters == Compile(pattern)
    {
      formatters := [];
      var userChars, it := "", 0;
      assert pattern[0..] == pattern;
      while it < |pattern|
        invariant 0 <= it <= |pattern|
        invariant Compile(pattern) == formatters + CompileFrom(pattern[it..], userChars)
      {
        Sequences.Cut(pattern, it);
        if pattern[it] == '%' {
          FlagFollows(pattern[it..], userChars, formatters);
          formatters := formatters + Chars(userChars);
          userChars := "";
          it := CompileFlagAt(pattern, it + 1);
        } else {
          userChars := userChars + [pattern[it]];
          it := it + 1;
        }
      }
      formatters := formatters + Chars(userChars);
    }

    /** The padding and the flag behind a percent sign; without a flag the pattern is at its end. */
    method CompileFlagAt(pattern: string, at: nat) returns (it: nat)
      requires at <= |pattern|
      modifies this`formatters
      ensures at <= it <= |pattern|
      ensures old(formatters) + CompileFlag(pattern[at..]) == formatters + CompileFrom(pattern[it..], "")
    {
      var padding, next := HandlePadSpec(pattern, at);
      if next == |pattern| {
        return next;
      }
      Sequences.Cut(pattern, next);
      ghost var rest := CompileFrom(pattern[next + 1..], "");
      Sequences.Assoc(formatters, [FormatterOf(pattern[next], padding)], rest);
      HandleFlag(pattern[next], padding);
      it := next + 1;
    }

    /** Appends a text in its padding. */
    method FormatPadded(text: string, padding: Padding, dest: MemoryBuffer)
      requires padding.width <= MAX_WIDTH
      modifies dest
      ensures dest.text == old(dest.text) + Padded(text, padding)
    {
      var pad := new ScopedPad(|text|, padding, dest);
      dest.Append(text);
      pad.Close();
    }

    /** Widths never exceed the 128 blanks a pad can take, in any compiled pattern. */
    method Format(msg: Message, dest: MemoryBuffer)
      requires formatters == Compile(pattern)
      modifies dest
      ensures dest.text == old(dest.text) + Outputs(Compile(pattern), msg) + eol
    {
      WidthsAreCapped(pattern);
      for k := 0 to |formatters|
        invariant dest.text == old(dest.text) + Outputs(formatters[..k], msg)
      {
        assert formatters[..k + 1][..k] == formatters[..k];
        FormatOne(formatters[k], msg, dest);
      }
      assert formatters[..|formatters|] == formatters;
      dest.Append(eol);
    }

    method FormatOne(f: Formatter, msg: Message, dest: MemoryBuffer)
      requires f.Flag? ==> f.padding.width <= MAX_WIDTH
      modifies dest
      ensures dest.text == old(dest.text) + Output(f, msg)
    {
      match f {
        case Aggregate(text) => dest.Append(text);
        case Percent => FormatPadded("%", Padding(0, Left), dest);
        case Flag(kind, padding) =>
          match kind {
            case 'n' => FormatPadded(msg.name, padding, dest);
            case 'l' => FormatPadded(msg.level, padding, dest);
            case 'L' => FormatPadded(msg.shortLevel, padding, dest);
            case 'v' => FormatPadded(msg.payload, padding, dest);
            case _ => dest.Append(msg.other(kind, padding));
          }
      }
    }
  }

  lemma WidthsAreCapped(pattern: string)
    ensures forall f :: f in Compile(pattern) && f.Flag? ==> f.padding.width <= MAX_WIDTH
  {
    CompiledIsWellFormed(pattern, "");
    WellFormedAt(Compile(pattern));
  }

  lemma {:induction false} WellFormedAt(fs: seq<Formatter>)
    requires WellFormed(fs)
    ensures forall i :: 0 <= i < |fs| ==> WellFormedOne(fs[i])
  {
    if fs != [] {
      WellFormedAt(fs[1..]);
      assert forall i :: 1 <= i < |fs| ==> fs[i] == fs[1..][i - 1];
    }
  }
}
