/**
 The Lisp reader and printer. The reader is a recursive descent over the characters of the serial
 line; the printer writes a value back as text. The main result says exactly which values survive
 being printed and read.
 */
module Reader {
  import opened Common

  const INT_MAX := 0x7fff_ffff
  const SYMBOL_MAX_LEN := 200
  const PRINT_MAX := 99            // lisp_printf's buffer without its terminator
  const EOF := 255 as char         // the byte that the reader's `int c` sees as -1
  const NUL := 0 as char

  datatype Kind = Primitive | Function | Macro

  /** What a pointer to a Lisp object denotes; Null, Dot and Cparen only appear while reading. */
  datatype Value =
    | Nil | True | Int(value: int) | Symbol(name: string) | Cell(car: Value, cdr: Value)
    | Procedure(kind: Kind) | Env | Dot | Cparen | Null

  datatype Error = UnclosedParenthesis | ParenthesisExpected | SymbolTooLong | UnknownCharacter

  /** A value and the input left, an error, arithmetic overflow, or waiting for more input. */
  datatype Outcome = Expr(value: Value, rest: string) | Stop(error: Error) | Overflow | Waiting

  predicate IsDigit(c: char) { '0' <= c <= '9' }
  predicate IsAlpha(c: char) { 'a' <= c <= 'z' || 'A' <= c <= 'Z' }

  predicate IsPunctuation(c: char)
  {
    c == '~' || c == '!' || c == '@' || c == '#' || c == '$' || c == '%' || c == '^' || c == '&' || c == '*' ||
    c == '-' || c == '_' || c == '=' || c == '+' || c == ':' || c == '/' || c == '?' || c == '<' || c == '>'
  }

  /** `strchr` also finds the terminator of the string it searches. */
  predicate IsSymbolChar(c: char) { IsPunctuation(c) || c == NUL }
  predicate GoesOn(c: char) { IsAlpha(c) || IsDigit(c) || IsSymbolChar(c) }

  // Reading

  datatype Skipped = Line(rest: string) | NoLineYet

  function SkipLine(s: string): (r: Skipped)
    ensures r.Line? ==> |r.rest| < |s|
  {
    if s == [] then NoLineYet
    else if s[0] == EOF || s[0] == '\n' then Line(s[1..])
    else if s[0] == '\r' then
      if s[1..] == [] then NoLineYet else if s[1] == '\n' then Line(s[2..]) else Line(s[1..])
    else SkipLine(s[1..])
  }

  datatype NumberRead = Number(value: int, rest: string) | TooLarge | NoNumberYet

  function ReadNumber(val: nat, s: string): (r: NumberRead)
    ensures r.Number? ==> |r.rest| <= |s|
    ensures val <= INT_MAX && r.Number? ==> 0 <= r.value <= INT_MAX
    decreases |s|
  {
    if s == [] then NoNumberYet
    else if !IsDigit(s[0]) then Number(val, s)
    else
      var v := val * 10 + (s[0] as int - '0' as int);
      if v > INT_MAX then TooLarge else ReadNumber(v, s[1..])
  }

  /** The characters of a C string held in `buf`. */
  function CString(buf: string): string
  {
    if buf == [] || buf[0] == NUL then [] else [buf[0]] + CString(buf[1..])
  }

  function ReadSymbol(buf: string, s: string): (r: Outcome)
    ensures r.Expr? ==> r.value.Symbol? && |r.rest| <= |s|
    decreases |s|
  {
    if s == [] then Waiting
    else if GoesOn(s[0]) then
      if SYMBOL_MAX_LEN <= |buf| then Stop(SymbolTooLong) else ReadSymbol(buf + [s[0]], s[1..])
    else Expr(Symbol(CString(buf)), s)
  }

  /** The loop of `reverse`: the cells of `p` put in front of `ret`, last one first. */
  function ReverseOnto(p: Value, ret: Value): Value
  {
    if p.Cell? then ReverseOnto(p.cdr, Cell(p.car, ret)) else ret
  }

  /** Reversing `head` and then storing `last` in the cdr of what was its first cell. */
  function Dotted(head: Value, last: Value): Value
  {
    if head.Cell? then ReverseOnto(head, last) else Nil
  }

  /** A number or a symbol that starts with `c`. */
  function ReadAtom(c: char, t: string): (r: Outcome)
    ensures r.Expr? ==> |r.rest| <= |t|
  {
    if IsDigit(c) then
      match ReadNumber(c as int - '0' as int, t) {
        case Number(v, u) => Expr(Int(v), u)
        case TooLarge => Overflow
        case NoNumberYet => Waiting
      }
    else if c == '-' && t == [] then Waiting
    else if c == '-' && IsDigit(t[0]) then
      match ReadNumber(0, t) {
        case Number(v, u) => Expr(Int(-v), u)
        case TooLarge => Overflow
        case NoNumberYet => Waiting
      }
    else if IsAlpha(c) || IsSymbolChar(c) then ReadSymbol([c], t)
    else Stop(UnknownCharacter)
  }

  function ReadExpr(s: string): (r: Outcome)
    ensures r.Expr? ==> |r.rest| < |s|
    decreases |s|, 0
  {
    if s == [] then Waiting
    else
      var c, t := s[0], s[1..];
      if c == ' ' || c == '\n' || c == '\r' || c == '\t' then ReadExpr(t)
      else if c == EOF then Expr(Null, t)
      else if c == ';' then
        match SkipLine(t) { case Line(u) => ReadExpr(u) case NoLineYet => Waiting }
      else if c == '(' then ReadList(t, Nil)
      else if c == ')' then Expr(Cparen, t)
      else if c == '.' then Expr(Dot, t)
      else if c == '\'' then
        match ReadExpr(t) {
          case Expr(v, u) => Expr(Cell(Symbol("quote"), Cell(v, Nil)), u)
          case stop => stop
        }
      else ReadAtom(c, t)
  }

  /** Reads list elements in front of `head`, which holds those read so far, latest first. */
  function ReadList(s: string, head: Value): (r: Outcome)
    ensures r.Expr? ==> |r.rest| < |s|
    decreases |s|, 1
  {
    match ReadExpr(s) {
      case Expr(obj, t) =>
        if obj == Null then Stop(UnclosedParenthesis)
        else if obj == Cparen then Expr(ReverseOnto(head, Nil), t)
        else if obj == Dot then ReadTail(t, head)
        else ReadList(t, Cell(obj, head))
      case stop => stop
    }
  }

  /** What follows a dot: one expression and the closing parenthesis. */
  function ReadTail(s: string, head: Value): (r: Outcome)
    ensures r.Expr? ==> |r.rest| < |s|
    decreases |s|, 1
  {
    match ReadExpr(s) {
      case Expr(last, t) =>
        (match ReadExpr(t) {
          case Expr(close, u) => if close == Cparen then Expr(Dotted(head, last), u) else Stop(ParenthesisExpected)
          case stop => stop
        })
      case stop => stop
    }
  }

  // Printing

  /** The values that `print` does not give up on. */
  predicate Printable(v: Value)
  {
    match v {
      case Cell(car, cdr) => Printable(car) && Printable(cdr)
      case Env | Dot | Cparen | Null => false
      case _ => true
    }
  }

  function Digit(d: nat): char
    requires d < 10
  {
    ('0' as int + d) as char
  }

  function Digits(n: nat): string
  {
    (if n < 10 then [] else Digits(n / 10)) + [Digit(n % 10)]
  }

  /** What is left of a formatted text in `lisp_printf`'s buffer. */
  function Clip(s: string): string
  {
    if |s| <= PRINT_MAX then s else s[..PRINT_MAX]
  }

  function Text(v: Value): string
    requires Printable(v)
    decreases v, 1
  {
    match v {
      case Nil => "()"
      case True => "t"
      case Int(i) => if i < 0 then "-" + Digits(-i) else Digits(i)
      case Symbol(name) => Clip(name)
      case Procedure(kind) =>
        (match kind { case Primitive => "<primitive>" case Function => "<function>" case Macro => "<macro>" })
      case Cell(_, _) => "(" + Inside(v) + ")"
    }
  }

  /** The elements of a list, its dotted tail included. */
  function Inside(v: Value): string
    requires v.Cell? && Printable(v)
    decreases v, 0
  {
    Text(v.car) +
    (if v.cdr == Nil then "" else if v.cdr.Cell? then " " + Inside(v.cdr) else " . " + Text(v.cdr))
  }

  datatype Printed = Written(text: string) | UnknownTag

  function Print(v: Value): Printed
  {
    if Printable(v) then Written(Text(v)) else UnknownTag
  }

  // Which values survive

  predicate FirstOk(c: char) { IsAlpha(c) || IsPunctuation(c) }
  predicate NextOk(c: char) { FirstOk(c) || IsDigit(c) }

  /** Names that the reader takes for one symbol. */
  predicate ReadableName(name: string)
  {
    |name| > 0 && FirstOk(name[0]) && (forall i :: 0 <= i < |name| ==> NextOk(name[i])) &&
    !(|name| > 1 && name[0] == '-' && IsDigit(name[1]))
  }

  predicate Readable(v: Value)
  {
    match v {
      case Nil => true
      case Int(i) => -INT_MAX <= i <= INT_MAX
      case Symbol(name) => ReadableName(name) && |name| <= PRINT_MAX
      case Cell(car, cdr) => Readable(car) && Readable(cdr)
      case _ => false
    }
  }

  /** Values of the C program: ints of an int's width, names that are C strings. */
  predicate Storable(v: Value)
  {
    match v {
      case Int(i) => -INT_MAX - 1 <= i <= INT_MAX
      case Symbol(name) => NUL !in name
      case Cell(car, cdr) => Storable(car) && Storable(cdr)
      case _ => true
    }
  }

  /** A list ends itself; a number or a symbol ends where a character that cannot go on follows. */
  predicate Ended(v: Value, rest: string)
  {
    v.Cell? || v.Nil? || (rest != [] && !GoesOn(rest[0]))
  }

  predicate SurvivesBefore(v: Value, rest: string)
  {
    match Print(v) { case Written(text) => ReadExpr(text + rest) == Expr(v, rest) case UnknownTag => false }
  }

  // Numbers and symbols

  lemma ReadDigit(val: nat, d: nat, t: string)
    requires d < 10 && val * 10 + d <= INT_MAX
    ensures IsDigit(Digit(d)) && ReadNumber(val, [Digit(d)] + t) == ReadNumber(val * 10 + d, t)
  {
    assert ([Digit(d)] + t)[1..] == t;
  }

  lemma DigitsText(n: nat, t: string)
    requires n >= 10
    ensures Digits(n) + t == Digits(n / 10) + ([Digit(n % 10)] + t)
  {}

  lemma {:induction false} ReadDigits(n: nat, t: string)
    requires n <= INT_MAX
    ensures ReadNumber(0, Digits(n) + t) == ReadNumber(n, t)
    ensures |Digits(n)| > 0 && IsDigit(Digits(n)[0])
  {
    var d := [Digit(n % 10)];
    if n < 10 {
      assert Digits(n) == d;
      ReadDigit(0, n, t);
    } else {
      DigitsText(n, t);
      ReadDigits(n / 10, d + t);
      ReadDigit(n / 10, n % 10, t);
    }
  }

  /** Letters, digits and punctuation start a number or a symbol. */
  lemma AtomReads(c: char, t: string)
    requires NextOk(c)
    ensures ReadExpr([c] + t) == ReadAtom(c, t)
  {
    assert ([c] + t)[1..] == t;
  }

  lemma DigitReads(s: string)
    requires s != [] && IsDigit(s[0]) && ReadNumber(0, s).Number?
    ensures ReadExpr(s) == Expr(Int(ReadNumber(0, s).value), ReadNumber(0, s).rest)
  {
    assert s == [s[0]] + s[1..];
    AtomReads(s[0], s[1..]);
  }

  lemma MinusReads(s: string)
    requires s != [] && IsDigit(s[0]) && ReadNumber(0, s).Number?
    ensures ReadExpr("-" + s) == Expr(Int(-ReadNumber(0, s).value), ReadNumber(0, s).rest)
  {
    AtomReads('-', s);
  }

  /** The digits of n before a text that ends them. */
  lemma ReadNat(n: nat, rest: string)
    requires n <= INT_MAX && rest != [] && !GoesOn(rest[0])
    ensures var s := Digits(n) + rest; IsDigit(s[0]) && ReadNumber(0, s) == Number(n, rest)
  {
    ReadDigits(n, rest);
  }

  lemma ReadNegative(i: int, rest: string)
    requires -INT_MAX <= i < 0 && rest != [] && !GoesOn(rest[0])
    ensures ReadExpr("-" + (Digits(-i) + rest)) == Expr(Int(i), rest)
  {
    ReadNat(-i, rest);
    MinusReads(Digits(-i) + rest);
  }

  lemma ReadInt(i: int, rest: string)
    requires -INT_MAX <= i <= INT_MAX && rest != [] && !GoesOn(rest[0])
    ensures ReadExpr(Text(Int(i)) + rest) == Expr(Int(i), rest)
  {
    if i < 0 {
      assert Text(Int(i)) + rest == "-" + (Digits(-i) + rest);
      ReadNegative(i, rest);
    } else {
      ReadNat(i, rest);
      DigitReads(Digits(i) + rest);
    }
  }

  lemma {:induction false} CStringWhole(buf: string)
    requires NUL !in buf
    ensures CString(buf) == buf
  {
    if buf != [] { CStringWhole(buf[1..]); }
  }

  lemma {:induction false} ReadName(buf: string, name: string, rest: string)
    requires NUL !in buf && |buf| + |name| <= SYMBOL_MAX_LEN && rest != [] && !GoesOn(rest[0])
    requires forall i :: 0 <= i < |name| ==> NextOk(name[i])
    ensures ReadSymbol(buf, name + rest) == Expr(Symbol(buf + name), rest)
    decreases |name|
  {
    if name == [] {
      CStringWhole(buf);
      assert name + rest == rest && buf + name == buf;
    } else {
      assert GoesOn(name[0]) && NextOk(name[0]);
      ReadName(buf + [name[0]], name[1..], rest);
      assert (name + rest)[1..] == name[1..] + rest;
      assert buf + [name[0]] + name[1..] == buf + name;
    }
  }

  lemma ReadParts(c: char, more: string, rest: string)
    requires FirstOk(c) && |more| < SYMBOL_MAX_LEN && rest != [] && !GoesOn(rest[0])
    requires forall i :: 0 <= i < |more| ==> NextOk(more[i])
    requires !(more != [] && c == '-' && IsDigit(more[0]))
    ensures ReadAtom(c, more + rest) == Expr(Symbol([c] + more), rest)
  {
    assert (more + rest)[0] == if more == [] then rest[0] else more[0];
    ReadName([c], more, rest);
  }

  lemma HeadAndMore(name: string, rest: string)
    requires name != []
    ensures [name[0]] + name[1..] == name && [name[0]] + (name[1..] + rest) == name + rest
  {}

  lemma ReadWord(name: string, rest: string)
    requires ReadableName(name) && |name| <= SYMBOL_MAX_LEN && rest != [] && !GoesOn(rest[0])
    ensures ReadExpr(name + rest) == Expr(Symbol(name), rest)
  {
    var c, more := name[0], name[1..];
    HeadAndMore(name, rest);
    ReadParts(c, more, rest);
    AtomReads(c, more + rest);
  }

  // Printing and reading back

  lemma ReadablePrints(v: Value)
    requires Readable(v)
    ensures Printable(v)
  {
  }

  lemma SpaceSkipped(s: string, head: Value)
    ensures ReadExpr(" " + s) == ReadExpr(s) && ReadList(" " + s, head) == ReadList(s, head)
  {
    assert (" " + s)[1..] == s;
  }

  lemma Brackets(s: string)
    ensures ReadExpr("(" + s) == ReadList(s, Nil)
    ensures ReadExpr(")" + s) == Expr(Cparen, s)
  {
    assert ("(" + s)[1..] == s && (")" + s)[1..] == s;
  }

  lemma CloseReads(s: string, head: Value)
    ensures ReadList(")" + s, head) == Expr(ReverseOnto(head, Nil), s)
  {
    Brackets(s);
  }

  lemma DotReads(s: string, head: Value)
    ensures ReadList(" . " + s, head) == ReadTail(s, head)
  {
    SpaceSkipped(". " + s, head);
    assert " " + (". " + s) == " . " + s;
    assert (". " + s)[1..] == " " + s;
    SpaceSkipped(s, Nil);
  }

  lemma ElementReads(s: string, obj: Value, t: string, head: Value)
    requires ReadExpr(s) == Expr(obj, t) && !obj.Null? && !obj.Cparen? && !obj.Dot?
    ensures ReadList(s, head) == ReadList(t, Cell(obj, head))
  {
  }

  lemma TailReads(s: string, last: Value, t: string, head: Value)
    requires ReadExpr(s) == Expr(last, ")" + t)
    ensures ReadTail(s, head) == Expr(Dotted(head, last), t)
  {
    Brackets(t);
  }

  /** Reading what was printed gives back the value and leaves exactly what followed. */
  lemma {:induction false} ReadsBack(v: Value, rest: string)
    requires Readable(v) && Printable(v) && Ended(v, rest)
    ensures ReadExpr(Text(v) + rest) == Expr(v, rest)
    decreases v, 1
  {
    match v {
      case Nil =>
        assert Text(v) + rest == "(" + (")" + rest);
        Brackets(")" + rest);
        CloseReads(rest, Nil);
      case Int(i) => ReadInt(i, rest);
      case Symbol(name) => ReadWord(name, rest);
      case Cell(_, _) =>
        var t := Inside(v) + (")" + rest);
        assert Text(v) + rest == "(" + t;
        Brackets(t);
        InsideReadsBack(v, Nil, rest);
    }
  }

  /** How the text of a list starts, with everything after it. */
  lemma InsideSplit(v: Value, close: string)
    requires v.Cell? && Printable(v)
    ensures v.cdr.Cell? ==> Inside(v) + close == Text(v.car) + (" " + (Inside(v.cdr) + close))
    ensures v.cdr == Nil ==> Inside(v) + close == Text(v.car) + close
    ensures !v.cdr.Cell? && v.cdr != Nil ==> Inside(v) + close == Text(v.car) + (" . " + (Text(v.cdr) + close))
  {
  }

  /** Reading the elements of `v` in front of those in `head`. */
  lemma {:induction false} InsideReadsBack(v: Value, head: Value, rest: string)
    requires v.Cell? && Readable(v) && Printable(v)
    ensures ReadList(Inside(v) + (")" + rest), head) == Expr(ReverseOnto(head, v), rest)
    decreases v, 0
  {
    var close := ")" + rest;
    var more := Cell(v.car, head);
    InsideSplit(v, close);
    if v.cdr.Cell? {
      var u := Inside(v.cdr) + close;
      ReadsBack(v.car, " " + u);
      ElementReads(Text(v.car) + (" " + u), v.car, " " + u, head);
      SpaceSkipped(u, more);
      InsideReadsBack(v.cdr, more, rest);
    } else if v.cdr == Nil {
      ReadsBack(v.car, close);
      ElementReads(Text(v.car) + close, v.car, close, head);
      CloseReads(rest, more);
    } else {
      var u := Text(v.cdr) + close;
      ReadsBack(v.car, " . " + u);
      ElementReads(Text(v.car) + (" . " + u), v.car, " . " + u, head);
      DotReads(u, more);
      ReadsBack(v.cdr, close);
      TailReads(u, v.cdr, rest, more);
    }
  }

  // Every spelling of a value

  /** What may stand before an expression: a blank, or a comment with the character that ends its line. */
  datatype Blank = Space(c: char) | Comment(line: string, end: char)

  /** An expression with all its blanks, as it may be written. */
  datatype Source =
    | Word(v: Value)
    | Quoted(gap: seq<Blank>, what: Source)
    | Listed(items: Items)

  datatype Items =
    | Close(gap: seq<Blank>)
    | Item(gap: seq<Blank>, first: Source, more: Items)
    | Tail(gap: seq<Blank>, before: seq<Blank>, last: Source, after: seq<Blank>)

  predicate BlankOk(b: Blank)
  {
    match b {
      case Space(c) => c in " \n\r\t"
      case Comment(line, end) =>
        '\n' !in line && '\r' !in line && EOF !in line && (end == '\n' || end == '\r' || end == EOF)
    }
  }

  predicate GapOk(gap: seq<Blank>) { forall b :: b in gap ==> BlankOk(b) }

  function BlankText(b: Blank): string
  {
    match b { case Space(c) => [c] case Comment(line, end) => ";" + line + [end] }
  }

  function Spelled(gap: seq<Blank>): string
  {
    if gap == [] then "" else BlankText(gap[0]) + Spelled(gap[1..])
  }

  /** The text of an expression. */
  function Spelling(src: Source): string
  {
    match src {
      case Word(v) => if v.Symbol? then v.name else if Printable(v) then Text(v) else ""
      case Quoted(gap, what) => "'" + (Spelled(gap) + Spelling(what))
      case Listed(items) => "(" + SpellingOf(items)
    }
  }

  /** The text of what follows an opening parenthesis, with the closing one. */
  function SpellingOf(items: Items): string
  {
    match items {
      case Close(gap) => Spelled(gap) + ")"
      case Item(gap, first, more) => Spelled(gap) + (Spelling(first) + SpellingOf(more))
      case Tail(gap, before, last, after) =>
        Spelled(gap) + ("." + (Spelled(before) + (Spelling(last) + (Spelled(after) + ")"))))
    }
  }

  /** The value an expression stands for. */
  function Meaning(src: Source): Value
  {
    match src {
      case Word(v) => v
      case Quoted(_, what) => Cell(Symbol("quote"), Cell(Meaning(what), Nil))
      case Listed(items) => if items.Tail? then Nil else MeaningOf(items)
    }
  }

  function MeaningOf(items: Items): Value
  {
    match items {
      case Close(_) => Nil
      case Item(_, first, more) => Cell(Meaning(first), MeaningOf(more))
      case Tail(_, _, last, _) => Meaning(last)
    }
  }

  /** An expression that is well written where `rest` follows: words are readable, and end where they should. */
  predicate Spelt(src: Source, rest: string)
  {
    match src {
      case Word(v) =>
        && (v.Int? || v.Symbol?) && rest != [] && !GoesOn(rest[0])
        && (v.Int? ==> -INT_MAX <= v.value <= INT_MAX)
        && (v.Symbol? ==> ReadableName(v.name) && |v.name| <= SYMBOL_MAX_LEN)
      case Quoted(gap, what) => GapOk(gap) && Spelt(what, rest)
      case Listed(items) => SpeltItems(items, rest)
    }
  }

  predicate SpeltItems(items: Items, rest: string)
  {
    match items {
      case Close(gap) => GapOk(gap)
      case Item(gap, first, more) =>
        GapOk(gap) && Spelt(first, SpellingOf(more) + rest) && SpeltItems(more, rest)
      case Tail(gap, before, last, after) =>
        GapOk(gap) && GapOk(before) && GapOk(after) && Spelt(last, Spelled(after) + ")" + rest)
    }
  }

  // The text of each form with what follows it, bracketed as it is read.

  lemma QuotedText(gap: seq<Blank>, what: Source, rest: string)
    ensures Spelling(Quoted(gap, what)) + rest == "'" + (Spelled(gap) + (Spelling(what) + rest))
  {}

  lemma ListedText(items: Items, rest: string)
    ensures Spelling(Listed(items)) + rest == "(" + (SpellingOf(items) + rest)
  {}

  lemma CloseText(gap: seq<Blank>, rest: string)
    ensures SpellingOf(Close(gap)) + rest == Spelled(gap) + (")" + rest)
    ensures Spelled(gap) + ")" + rest == Spelled(gap) + (")" + rest)
  {}

  lemma Assoc(a: string, b: string, c: string)
    ensures (a + b) + c == a + (b + c)
  {}

  lemma Assoc3(a: string, b: string, c: string, d: string)
    ensures (a + (b + c)) + d == a + (b + (c + d))
  {
    Assoc(a, b + c, d);
    Assoc(b, c, d);
  }

  lemma ItemText(gap: seq<Blank>, first: Source, more: Items, rest: string)
    ensures SpellingOf(Item(gap, first, more)) + rest == Spelled(gap) + (Spelling(first) + (SpellingOf(more) + rest))
    ensures Opened(Item(gap, first, more)) + rest == Spelled(gap) + (Spelling(first) + (Opened(more) + rest))
  {
    Assoc3(Spelled(gap), Spelling(first), SpellingOf(more), rest);
    Assoc3(Spelled(gap), Spelling(first), Opened(more), rest);
  }

  lemma TailText(gap: seq<Blank>, before: seq<Blank>, last: Source, after: seq<Blank>, rest: string)
    ensures SpellingOf(Tail(gap, before, last, after)) + rest ==
              Spelled(gap) + ("." + (Spelled(before) + (Spelling(last) + (Spelled(after) + ")" + rest))))
  {
    var end := Spelled(after) + ")";
    Assoc3(Spelled(before), Spelling(last), end, rest);
    Assoc3(Spelled(gap), ".", Spelled(before) + (Spelling(last) + end), rest);
  }

  lemma {:induction false} LineSkipped(line: string, end: char, s: string)
    requires BlankOk(Comment(line, end)) && s != []
    ensures SkipLine(line + [end] + s) == Line(if end == '\r' && s[0] == '\n' then s[1..] else s)
    decreases |line|
  {
    var t := line + [end] + s;
    if line == [] {
      assert t[1..] == s && t[2..] == s[1..];
    } else {
      LineSkipped(line[1..], end, s);
      assert t[0] == line[0] && t[0] in line;
      assert t[1..] == line[1..] + [end] + s;
    }
  }

  lemma CommentReads(line: string, end: char, s: string)
    requires BlankOk(Comment(line, end)) && s != []
    ensures ReadExpr(";" + line + [end] + s) == ReadExpr(s)
  {
    var t := ";" + line + [end] + s;
    assert t[1..] == line + [end] + s;
    LineSkipped(line, end, s);
  }

  lemma SpaceReads(c: char, s: string)
    requires c in " \n\r\t"
    ensures ReadExpr([c] + s) == ReadExpr(s)
  {
    assert ([c] + s)[1..] == s;
  }

  lemma BlankReads(b: Blank, s: string)
    requires BlankOk(b) && s != []
    ensures ReadExpr(BlankText(b) + s) == ReadExpr(s)
  {
    match b {
      case Space(c) => SpaceReads(c, s);
      case Comment(line, end) => CommentReads(line, end, s);
    }
  }

  /** Blanks and comments before an expression do not matter. */
  lemma {:induction false} GapReads(gap: seq<Blank>, s: string)
    requires GapOk(gap) && s != []
    ensures ReadExpr(Spelled(gap) + s) == ReadExpr(s)
    decreases |gap|
  {
    if gap == [] {
      assert Spelled(gap) + s == s;
    } else {
      var u := Spelled(gap[1..]) + s;
      assert Spelled(gap) + s == BlankText(gap[0]) + u;
      GapReads(gap[1..], s);
      assert gap[0] in gap && u != [];
      BlankReads(gap[0], u);
    }
  }

  lemma QuoteMarkReads(s: string)
    requires ReadExpr(s).Expr?
    ensures ReadExpr("'" + s) == Expr(Cell(Symbol("quote"), Cell(ReadExpr(s).value, Nil)), ReadExpr(s).rest)
  {
    assert ("'" + s)[1..] == s;
  }

  /** The quote mark before any printed value. */
  lemma QuoteReads(v: Value, rest: string)
    requires Readable(v) && Printable(v) && Ended(v, rest)
    ensures ReadExpr("'" + (Text(v) + rest)) == Expr(Cell(Symbol("quote"), Cell(v, Nil)), rest)
  {
    ReadsBack(v, rest);
    QuoteMarkReads(Text(v) + rest);
  }

  lemma WordReads(v: Value, rest: string)
    requires Spelt(Word(v), rest)
    ensures ReadExpr(Spelling(Word(v)) + rest) == Expr(v, rest)
  {
    if v.Int? { ReadInt(v.value, rest); } else { ReadWord(v.name, rest); }
  }

  /** A list reads on after the blanks, as its first expression does. */
  lemma GapInList(gap: seq<Blank>, s: string, head: Value)
    requires GapOk(gap) && s != []
    ensures ReadList(Spelled(gap) + s, head) == ReadList(s, head)
  {
    GapReads(gap, s);
  }

  /**
   However a value is spelled, with any blanks and comments, quote marks and dotted tails, it is read
   as what it stands for, and exactly its text is consumed.
   */
  lemma {:induction false} SpellingReads(gap: seq<Blank>, src: Source, rest: string)
    requires GapOk(gap) && Spelt(src, rest)
    ensures ReadExpr(Spelled(gap) + (Spelling(src) + rest)) == Expr(Meaning(src), rest)
    decreases src
  {
    SourceReads(src, rest);
    SourceNotEmpty(src, rest);
    GapReads(gap, Spelling(src) + rest);
  }

  lemma SourceNotEmpty(src: Source, rest: string)
    requires Spelt(src, rest)
    ensures Spelling(src) + rest != []
  {}

  lemma {:induction false} SourceReads(src: Source, rest: string)
    requires Spelt(src, rest)
    ensures ReadExpr(Spelling(src) + rest) == Expr(Meaning(src), rest)
    decreases src, 0
  {
    match src {
      case Word(v) => WordReads(v, rest);
      case Quoted(gap, what) =>
        SourceReads(what, rest);
        QuotedReads(gap, what, rest);
      case Listed(items) =>
        ItemsRead(items, Nil, rest);
        ListedReads(items, rest);
    }
  }

  lemma QuotedReads(gap: seq<Blank>, what: Source, rest: string)
    requires GapOk(gap) && Spelt(what, rest) && ReadExpr(Spelling(what) + rest) == Expr(Meaning(what), rest)
    ensures ReadExpr(Spelling(Quoted(gap, what)) + rest) == Expr(Meaning(Quoted(gap, what)), rest)
  {
    SourceNotEmpty(what, rest);
    QuotedText(gap, what, rest);
    GapReads(gap, Spelling(what) + rest);
    QuoteMarkReads(Spelled(gap) + (Spelling(what) + rest));
  }

  lemma ListedReads(items: Items, rest: string)
    ensures ReadExpr(Spelling(Listed(items)) + rest) == ReadList(SpellingOf(items) + rest, Nil)
  {
    ListedText(items, rest);
    Brackets(SpellingOf(items) + rest);
  }

  /** Only expressions have meanings, not the reader's marks. */
  lemma MeaningIsValue(src: Source, rest: string)
    requires Spelt(src, rest)
    ensures !Meaning(src).Null? && !Meaning(src).Cparen? && !Meaning(src).Dot?
  {
    match src {
      case Word(_) =>
      case Quoted(_, _) =>
      case Listed(items) =>
    }
  }

  lemma {:induction false} ItemsRead(items: Items, head: Value, rest: string)
    requires SpeltItems(items, rest)
    ensures ReadList(SpellingOf(items) + rest, head) ==
              Expr(if items.Tail? then Dotted(head, MeaningOf(items)) else ReverseOnto(head, MeaningOf(items)), rest)
    decreases items, 1
  {
    match items {
      case Close(gap) =>
        CloseText(gap, rest);
        GapInList(gap, ")" + rest, head);
        CloseReads(rest, head);
      case Item(gap, first, more) =>
        var t := SpellingOf(more) + rest;
        ItemText(gap, first, more, rest);
        SourceReads(first, t);
        ItemReads(gap, first, t, head);
        ItemsRead(more, Cell(Meaning(first), head), rest);
      case Tail(gap, before, last, after) =>
        var t := Spelled(after) + ")" + rest;
        SourceReads(last, t);
        TailItemsRead(gap, before, last, after, head, rest);
    }
  }

  lemma ItemReads(gap: seq<Blank>, first: Source, t: string, head: Value)
    requires GapOk(gap) && Spelt(first, t) && ReadExpr(Spelling(first) + t) == Expr(Meaning(first), t)
    ensures ReadList(Spelled(gap) + (Spelling(first) + t), head) == ReadList(t, Cell(Meaning(first), head))
  {
    SourceNotEmpty(first, t);
    MeaningIsValue(first, t);
    GapInList(gap, Spelling(first) + t, head);
    ElementReads(Spelling(first) + t, Meaning(first), t, head);
  }

  lemma TailItemsRead(gap: seq<Blank>, before: seq<Blank>, last: Source, after: seq<Blank>, head: Value, rest: string)
    requires GapOk(gap) && GapOk(before) && GapOk(after) && Spelt(last, Spelled(after) + ")" + rest)
    requires var t := Spelled(after) + ")" + rest; ReadExpr(Spelling(last) + t) == Expr(Meaning(last), t)
    ensures ReadList(SpellingOf(Tail(gap, before, last, after)) + rest, head) == Expr(Dotted(head, Meaning(last)), rest)
  {
    var t := Spelled(after) + ")" + rest;
    var u := Spelled(before) + (Spelling(last) + t);
    TailText(gap, before, last, after, rest);
    SourceNotEmpty(last, t);
    GapReads(before, Spelling(last) + t);
    ClosedAfter(after, rest);
    GapInList(gap, "." + u, head);
    DotMarkReads(u, head);
  }

  lemma ClosedAfter(after: seq<Blank>, rest: string)
    requires GapOk(after)
    ensures ReadExpr(Spelled(after) + ")" + rest) == Expr(Cparen, rest)
  {
    CloseText(after, rest);
    GapReads(after, ")" + rest);
    Brackets(rest);
  }

  lemma DotMarkReads(s: string, head: Value)
    ensures ReadList("." + s, head) == ReadTail(s, head)
  {
    assert ("." + s)[1..] == s;
  }

  // What is not a value

  lemma PunctuationIs(c: char)
    ensures IsPunctuation(c) <==> c in "~!@#$%^&*-_=+:/?<>"
  {}

  /** An int too large for the machine overflows. */
  lemma {:induction false} LargeNumber(n: nat, t: string)
    requires n > INT_MAX
    ensures ReadNumber(0, Digits(n) + t) == TooLarge && |Digits(n)| > 0 && IsDigit(Digits(n)[0])
  {
    var d := [Digit(n % 10)];
    DigitsText(n, t);
    if n / 10 > INT_MAX {
      LargeNumber(n / 10, d + t);
    } else {
      ReadDigits(n / 10, d + t);
      assert (d + t)[0] == Digit(n % 10);
    }
  }

  lemma LargeInt(n: nat, t: string)
    requires n > INT_MAX
    ensures ReadExpr(Digits(n) + t) == Overflow && ReadExpr("-" + (Digits(n) + t)) == Overflow
  {
    LargeNumber(n, t);
    var s := Digits(n) + t;
    assert s == [s[0]] + s[1..];
    AtomReads(s[0], s[1..]);
    AtomReads('-', s);
  }

  /** A name of more than 200 characters is refused. */
  lemma LongName(name: string, rest: string)
    requires ReadableName(name) && |name| > SYMBOL_MAX_LEN
    ensures ReadExpr(name + rest) == Stop(SymbolTooLong)
  {
    var c, more := name[0], name[1..];
    assert name + rest == [c] + (more + rest) && more + rest != [] && (more + rest)[0] == name[1];
    AtomReads(c, more + rest);
    LongTail([c], more, rest);
  }

  lemma {:induction false} LongTail(buf: string, more: string, rest: string)
    requires |buf| <= SYMBOL_MAX_LEN < |buf| + |more| && forall i :: 0 <= i < |more| ==> NextOk(more[i])
    ensures ReadSymbol(buf, more + rest) == Stop(SymbolTooLong)
    decreases |more|
  {
    assert GoesOn(more[0]) && (more + rest)[1..] == more[1..] + rest;
    if |buf| < SYMBOL_MAX_LEN { LongTail(buf + [more[0]], more[1..], rest); }
  }

  /** What no expression starts with. */
  lemma UnknownReads(c: char, s: string)
    requires !NextOk(c) && c != NUL && c != EOF && c !in " \n\r\t;().'"
    ensures ReadExpr([c] + s) == Stop(UnknownCharacter)
  {
    assert ([c] + s)[1..] == s;
  }

  lemma EofReads(s: string, head: Value)
    ensures ReadExpr([EOF] + s) == Expr(Null, s) && ReadList([EOF] + s, head) == Stop(UnclosedParenthesis)
  {
    assert ([EOF] + s)[1..] == s;
  }

  /** The text of a list's elements without the closing parenthesis. */
  function Opened(items: Items): string
  {
    match items {
      case Close(gap) => Spelled(gap)
      case Item(gap, first, more) => Spelled(gap) + (Spelling(first) + Opened(more))
      case Tail(_, _, _, _) => ""
    }
  }

  /** Elements that are well written where the input then ends. */
  predicate SpeltOpen(items: Items, rest: string)
  {
    match items {
      case Close(gap) => GapOk(gap)
      case Item(gap, first, more) => GapOk(gap) && Spelt(first, Opened(more) + rest) && SpeltOpen(more, rest)
      case Tail(_, _, _, _) => false
    }
  }

  /** A list that the end of the input cuts off is an error, whatever has been read of it. */
  lemma {:induction false} UnclosedReads(items: Items, head: Value, s: string)
    requires SpeltOpen(items, [EOF] + s)
    ensures ReadList(Opened(items) + ([EOF] + s), head) == Stop(UnclosedParenthesis)
    decreases items
  {
    var rest := [EOF] + s;
    EofReads(s, head);
    match items {
      case Close(gap) => GapInList(gap, rest, head);
      case Item(gap, first, more) =>
        var t := Opened(more) + rest;
        ItemText(gap, first, more, rest);
        SourceReads(first, t);
        ItemReads(gap, first, t, head);
        UnclosedReads(more, Cell(Meaning(first), head), s);
    }
  }

  /** A second expression after the dot is an error. */
  lemma TwoTails(last: Source, gap: seq<Blank>, extra: Source, rest: string, head: Value)
    requires GapOk(gap) && Spelt(extra, rest) && Spelt(last, Spelled(gap) + (Spelling(extra) + rest))
    ensures ReadList("." + (Spelling(last) + (Spelled(gap) + (Spelling(extra) + rest))), head)
            == Stop(ParenthesisExpected)
  {
    var t := Spelled(gap) + (Spelling(extra) + rest);
    SourceReads(last, t);
    SpellingReads(gap, extra, rest);
    MeaningIsValue(extra, rest);
    DotMarkReads(Spelling(last) + t, head);
  }

  /** The C string in a buffer ends at the first NUL. */
  lemma {:induction false} CStringCut(name: string, more: string)
    requires NUL !in name
    ensures CString(name + [NUL] + more) == name
    decreases |name|
  {
    var buf := name + [NUL] + more;
    if name != [] {
      assert buf[0] == name[0] && buf[1..] == name[1..] + [NUL] + more;
      CStringCut(name[1..], more);
    }
  }

  lemma {:induction false} SymbolCollects(buf: string, more: string, rest: string)
    requires |buf| + |more| <= SYMBOL_MAX_LEN && rest != [] && !GoesOn(rest[0])
    requires forall i :: 0 <= i < |more| ==> GoesOn(more[i])
    ensures ReadSymbol(buf, more + rest) == Expr(Symbol(CString(buf + more)), rest)
    decreases |more|
  {
    if more == [] {
      assert more + rest == rest && buf + more == buf;
    } else {
      SymbolCollects(buf + [more[0]], more[1..], rest);
      assert (more + rest)[1..] == more[1..] + rest && buf + [more[0]] + more[1..] == buf + more;
    }
  }

  lemma AlphaReads(c: char, t: string)
    requires IsAlpha(c)
    ensures ReadExpr([c] + t) == ReadSymbol([c], t)
  {
    AtomReads(c, t);
  }

  lemma NulText(c: char, name: string, more: string)
    ensures [c] + (name + [NUL] + more) == ([c] + name) + [NUL] + more
  {}

  /** A NUL is taken for a part of a symbol, and ends its name there. */
  lemma NulEndsName(c: char, name: string, more: string, rest: string)
    requires IsAlpha(c) && |name| + |more| + 2 <= SYMBOL_MAX_LEN && rest != [] && !GoesOn(rest[0])
    requires NUL !in name && (forall i :: 0 <= i < |name| ==> GoesOn(name[i]))
    requires forall i :: 0 <= i < |more| ==> GoesOn(more[i])
    ensures ReadExpr([c] + (name + [NUL] + more + rest)) == Expr(Symbol([c] + name), rest)
  {
    NulText(c, name, more);
    CStringCut([c] + name, more);
    SymbolCollects([c], name + [NUL] + more, rest);
    AlphaReads(c, name + [NUL] + more + rest);
  }

  // While the input may still go on, the reader waits.

  lemma {:induction false} NumberWaits(val: nat, s: string)
    requires forall i :: 0 <= i < |s| ==> IsDigit(s[i])
    ensures ReadNumber(val, s).NoNumberYet? || ReadNumber(val, s).TooLarge?
    decreases |s|
  {
    if s != [] { NumberWaits(val * 10 + (s[0] as int - '0' as int), s[1..]); }
  }

  lemma {:induction false} SymbolWaits(buf: string, s: string)
    requires |buf| + |s| <= SYMBOL_MAX_LEN && forall i :: 0 <= i < |s| ==> GoesOn(s[i])
    ensures ReadSymbol(buf, s) == Waiting
    decreases |s|
  {
    if s != [] { SymbolWaits(buf + [s[0]], s[1..]); }
  }

  /** An int or a name that nothing follows may not be complete; nor is a minus sign. */
  lemma WordWaits(v: Value)
    requires v.Int? || v.Symbol?
    requires Readable(v) && Printable(v)
    ensures ReadExpr(Text(v)) == Waiting && ReadExpr("-") == Waiting && ReadExpr("") == Waiting
  {
    AtomReads('-', "");
    assert ['-'] + "" == "-";
    match v {
      case Int(i) => IntWaits(i);
      case Symbol(name) =>
        var c, more := name[0], name[1..];
        assert name == [c] + more;
        forall k | 0 <= k < |more| ensures GoesOn(more[k]) { assert more[k] == name[k + 1]; }
        AtomReads(c, more);
        SymbolWaits([c], more);
    }
  }

  lemma {:induction false} DigitsAre(n: nat)
    ensures |Digits(n)| > 0 && forall i :: 0 <= i < |Digits(n)| ==> IsDigit(Digits(n)[i])
  {
    if n >= 10 { DigitsAre(n / 10); }
  }

  lemma {:induction false} NumberStays(val: nat, n: nat, s: string)
    requires ReadNumber(val, s + ")") == Number(n, ")")
    ensures !ReadNumber(val, s).TooLarge?
    decreases |s|
  {
    if s != [] {
      assert (s + ")")[1..] == s[1..] + ")" && (s + ")")[0] == s[0];
      if IsDigit(s[0]) { NumberStays(val * 10 + (s[0] as int - '0' as int), n, s[1..]); }
    }
  }

  lemma IntWaits(i: int)
    requires -INT_MAX <= i <= INT_MAX
    ensures ReadExpr(Text(Int(i))) == Waiting
  {
    var n := if i < 0 then -i else i;
    var s := Digits(n);
    DigitsAre(n);
    NumberWaits(0, s);
    ReadDigits(n, ")");
    NumberStays(0, n, s);
    assert s == [s[0]] + s[1..];
    if i < 0 { AtomReads('-', s); } else { AtomReads(s[0], s[1..]); }
  }

  /** A comment whose line has not ended yet. */
  lemma {:induction false} CommentWaits(line: string)
    requires '\n' !in line && '\r' !in line && EOF !in line
    ensures SkipLine(line) == NoLineYet && SkipLine(line + "\r") == NoLineYet && ReadExpr(";" + line) == Waiting
    decreases |line|
  {
    assert (";" + line)[1..] == line;
    if line != [] {
      assert line[0] in line && (line + "\r")[1..] == line[1..] + "\r";
      CommentWaits(line[1..]);
    }
  }

  /** What prints as a word is read as a symbol of that name: true and the procedures do not survive. */
  lemma PrintedWords(v: Value, rest: string)
    requires (v.True? || v.Procedure?) && rest != [] && !GoesOn(rest[0])
    ensures Print(v).Written?
    ensures v.True? ==> ReadExpr(Print(v).text + rest) == Expr(Symbol("t"), rest)
    ensures v == Procedure(Primitive) ==> ReadExpr(Print(v).text + rest) == Expr(Symbol("<primitive>"), rest)
    ensures v == Procedure(Function) ==> ReadExpr(Print(v).text + rest) == Expr(Symbol("<function>"), rest)
    ensures v == Procedure(Macro) ==> ReadExpr(Print(v).text + rest) == Expr(Symbol("<macro>"), rest)
  {
    ReadWord(Print(v).text, rest);
  }

  // What the reader can produce

  /** Values the reader makes from input without NUL: as Readable, but with longer names and loose marks. */
  predicate Produced(v: Value)
  {
    match v {
      case Int(i) => -INT_MAX <= i <= INT_MAX
      case Symbol(name) => ReadableName(name)
      case Cell(car, cdr) => Produced(car) && Produced(cdr)
      case True | Procedure(_) | Env => false
      case _ => true
    }
  }

  /** An outcome that is a produced value, with no NUL in the input left. */
  predicate Good(r: Outcome) { r.Expr? ==> Produced(r.value) && NUL !in r.rest }

  lemma {:induction false} SkipGood(s: string)
    requires NUL !in s
    ensures SkipLine(s).Line? ==> NUL !in SkipLine(s).rest
  {
    if s != [] && s[0] != EOF && s[0] != '\n' && s[0] != '\r' { SkipGood(s[1..]); }
  }

  lemma {:induction false} NumberGood(val: nat, s: string)
    requires NUL !in s
    ensures ReadNumber(val, s).Number? ==> NUL !in ReadNumber(val, s).rest
    decreases |s|
  {
    if s != [] && IsDigit(s[0]) { NumberGood(val * 10 + (s[0] as int - '0' as int), s[1..]); }
  }

  /** The characters a symbol under way has collected, given what comes next. */
  predicate NameSoFar(buf: string, s: string)
  {
    |buf| > 0 && FirstOk(buf[0]) && (forall i :: 0 <= i < |buf| ==> NextOk(buf[i])) && NUL !in buf &&
    !(buf[0] == '-' && if |buf| > 1 then IsDigit(buf[1]) else s != [] && IsDigit(s[0]))
  }

  lemma {:induction false} SymbolGood(buf: string, s: string)
    requires NUL !in s && NameSoFar(buf, s)
    ensures Good(ReadSymbol(buf, s))
    decreases |s|
  {
    if s != [] && GoesOn(s[0]) {
      if |buf| < SYMBOL_MAX_LEN {
        assert s[0] in s;
        SymbolGood(buf + [s[0]], s[1..]);
      }
    } else {
      CStringWhole(buf);
    }
  }

  lemma {:induction false} ReverseGood(p: Value, ret: Value)
    requires Produced(p) && Produced(ret)
    ensures Produced(ReverseOnto(p, ret))
  {
    if p.Cell? { ReverseGood(p.cdr, Cell(p.car, ret)); }
  }

  lemma {:induction false} ExprGood(s: string)
    requires NUL !in s
    ensures Good(ReadExpr(s))
    decreases |s|, 0
  {
    if s != [] {
      var c, t := s[0], s[1..];
      assert c in s;
      if c == ' ' || c == '\n' || c == '\r' || c == '\t' || c == '\'' {
        ExprGood(t);
      } else if c == ';' {
        SkipGood(t);
        if SkipLine(t).Line? { ExprGood(SkipLine(t).rest); }
      } else if c == '(' {
        ListGood(t, Nil);
      } else if c != EOF && c != ')' && c != '.' {
        AtomGood(c, t);
      }
    }
  }

  lemma AtomGood(c: char, t: string)
    requires c != NUL && NUL !in t
    ensures Good(ReadAtom(c, t))
  {
    if IsDigit(c) {
      NumberGood(c as int - '0' as int, t);
    } else if c == '-' && t != [] && IsDigit(t[0]) {
      NumberGood(0, t);
    } else if FirstOk(c) && t != [] {
      SymbolGood([c], t);
    }
  }

  lemma {:induction false} ListGood(s: string, head: Value)
    requires NUL !in s && Produced(head)
    ensures Good(ReadList(s, head))
    decreases |s|, 1
  {
    ExprGood(s);
    var r := ReadExpr(s);
    if r.Expr? && r.value == Cparen {
      ReverseGood(head, Nil);
    } else if r.Expr? && r.value == Dot {
      TailGood(r.rest, head);
    } else if r.Expr? && r.value != Null {
      ListGood(r.rest, Cell(r.value, head));
    }
  }

  lemma {:induction false} TailGood(s: string, head: Value)
    requires NUL !in s && Produced(head)
    ensures Good(ReadTail(s, head))
    decreases |s|, 1
  {
    ExprGood(s);
    var r := ReadExpr(s);
    if r.Expr? {
      ExprGood(r.rest);
      ReverseGood(head, r.value);
    }
  }

  // Exactly which values survive

  /** A value with its names clipped as the printer clips them. */
  function Clipped(v: Value): Value
  {
    match v {
      case Symbol(name) => Symbol(Clip(name))
      case Cell(car, cdr) => Cell(Clipped(car), Clipped(cdr))
      case _ => v
    }
  }

  lemma {:induction false} ClippedLooksSame(v: Value)
    requires Printable(v)
    ensures Printable(Clipped(v)) && Text(Clipped(v)) == Text(v)
    ensures v.Cell? ==> Inside(Clipped(v)) == Inside(v)
  {
    if v.Cell? {
      ClippedLooksSame(v.car);
      ClippedLooksSame(v.cdr);
    }
  }

  lemma {:induction false} ClippedReadable(v: Value)
    requires Printable(v) && Produced(v)
    ensures Readable(Clipped(v))
    ensures Clipped(v) == v ==> Readable(v)
  {
    if v.Cell? {
      ClippedReadable(v.car);
      ClippedReadable(v.cdr);
    }
  }

  lemma {:induction false} DigitsNotNul(n: nat)
    ensures NUL !in Digits(n)
  {
    if n >= 10 { DigitsNotNul(n / 10); }
  }

  lemma InsideNotNul(v: Value)
    requires v.Cell? && Printable(v) && NUL !in Text(v.car) && NUL !in Text(v.cdr)
    requires v.cdr.Cell? ==> NUL !in Inside(v.cdr)
    ensures NUL !in Inside(v)
  {
  }

  lemma IntNotNul(i: int)
    ensures NUL !in Text(Int(i))
  {
    DigitsNotNul(if i < 0 then -i else i);
  }

  lemma {:induction false} TextNotNul(v: Value)
    requires Printable(v) && Storable(v)
    ensures NUL !in Text(v)
    ensures v.Cell? ==> NUL !in Inside(v)
  {
    match v {
      case Int(i) => IntNotNul(i);
      case Cell(car, cdr) =>
        TextNotNul(car);
        TextNotNul(cdr);
        InsideNotNul(v);
        BracketsNotNul(v);
      case _ =>
    }
  }

  lemma BracketsNotNul(v: Value)
    requires v.Cell? && Printable(v) && NUL !in Inside(v)
    ensures NUL !in Text(v)
  {}

  /**
   A value survives being printed and read, before every text that ends it, exactly when it is
   made of lists, nil, ints other than INT_MIN, and readable names of at most 99 characters.
   */
  lemma SurvivesIffReadable(v: Value)
    requires Storable(v)
    ensures Readable(v) <==> forall rest :: Ended(v, rest) ==> SurvivesBefore(v, rest)
  {
    if Readable(v) {
      ReadablePrints(v);
      forall rest | Ended(v, rest) ensures SurvivesBefore(v, rest) { ReadsBack(v, rest); }
    }
    if forall rest :: Ended(v, rest) ==> SurvivesBefore(v, rest) {
      assert Ended(v, " ") && SurvivesBefore(v, " ");
      TextNotNul(v);
      ExprGood(Text(v) + " ");
      ClippedReadable(v);
      ClippedLooksSame(v);
      ReadsBack(Clipped(v), " ");
    }
  }

  // Destructive reversal, and symbols as shared objects

  /** A pointer to a cell of the list under construction, or to anything else. */
  datatype Ref = End(value: Value) | At(cell: ListCell)

  class ListCell {
    const car: Value
    var cdr: Ref

    constructor (car: Value, cdr: Ref)
      ensures this.car == car && this.cdr == cdr
    {
      this.car := car;
      this.cdr := cdr;
    }
  }

  /** A pointer to the cell at position `i`, or to `end` past either side. */
  ghost function RefAt(cells: seq<ListCell>, i: int, end: Value): Ref
  {
    if 0 <= i < |cells| then At(cells[i]) else End(end)
  }

  /** The chain from `p` runs through exactly these cells and ends in `end`. */
  ghost predicate Chain(p: Ref, cells: seq<ListCell>, end: Value)
    reads cells
  {
    p == RefAt(cells, 0, end) && forall i :: 0 <= i < |cells| ==> cells[i].cdr == RefAt(cells, i + 1, end)
  }

  ghost function Backwards(cells: seq<ListCell>): (r: seq<ListCell>)
    ensures |r| == |cells| && forall i :: 0 <= i < |r| ==> r[i] == cells[|cells| - 1 - i]
  {
    seq(|cells|, i requires 0 <= i < |cells| => cells[|cells| - 1 - i])
  }

  /** The value of a chain of cells. */
  ghost function ListOf(cells: seq<ListCell>, end: Value): Value
  {
    if cells == [] then end else Cell(cells[0].car, ListOf(cells[1..], end))
  }

  lemma {:induction false} ListOfAppend(a: seq<ListCell>, b: seq<ListCell>, end: Value)
    ensures ListOf(a + b, end) == ListOf(a, ListOf(b, end))
  {
    if a == [] {
      assert a + b == b;
    } else {
      ListOfAppend(a[1..], b, end);
      assert (a + b)[1..] == a[1..] + b;
    }
  }

  /** Turning the cells around is what ReverseOnto does to the value. */
  lemma {:induction false} BackwardsIsReverse(cells: seq<ListCell>, end: Value)
    ensures ListOf(Backwards(cells), end) == ReverseOnto(ListOf(cells, Nil), end)
  {
    if cells != [] {
      BackwardsIsReverse(cells[1..], Cell(cells[0].car, end));
      assert Backwards(cells) == Backwards(cells[1..]) + [cells[0]];
      ListOfAppend(Backwards(cells[1..]), [cells[0]], end);
      assert ListOf([cells[0]], end) == Cell(cells[0].car, end);
    }
  }

  /** The links after the first k cells have been turned around. */
  ghost function Links(cells: seq<ListCell>, k: nat): (r: seq<Ref>)
    ensures |r| == |cells|
  {
    seq(|cells|, i => RefAt(cells, if i < k then i - 1 else i + 1, Nil))
  }

  lemma LinksStep(cells: seq<ListCell>, k: nat)
    requires k < |cells|
    ensures Links(cells, k)[k := RefAt(cells, k - 1, Nil)] == Links(cells, k + 1)
  {}

  ghost predicate Linked(cells: seq<ListCell>, links: seq<Ref>)
    reads cells
  {
    |links| == |cells| && forall i :: 0 <= i < |cells| ==> cells[i].cdr == links[i]
  }

  method SetCdr(head: ListCell, ret: Ref, ghost cells: seq<ListCell>, ghost links: seq<Ref>, ghost k: nat)
    requires Linked(cells, links) && Distinct(cells) && k < |cells| && head == cells[k]
    modifies head
    ensures Linked(cells, links[k := ret])
  {
    head.cdr := ret;
  }

  method Reverse(p: Ref, ghost cells: seq<ListCell>) returns (ret: Ref)
    requires Chain(p, cells, Nil) && Distinct(cells)
    modifies cells
    ensures Chain(ret, Backwards(cells), Nil)
  {
    ret := End(Nil);
    var q := p;
    ghost var k := 0;
    while q != End(Nil)
      invariant k <= |cells| && q == RefAt(cells, k, Nil) && ret == RefAt(cells, k - 1, Nil)
      invariant Linked(cells, Links(cells, k))
      decreases |cells| - k
    {
      var head := q.cell;
      q := head.cdr;
      LinksStep(cells, k);
      SetCdr(head, ret, cells, Links(cells, k), k);
      ret := At(head);
      k := k + 1;
    }
    TurnedIsChain(cells, ret);
  }

  /** Cells that point each at the one before it, and a pointer to the last one. */
  lemma TurnedIsChain(cells: seq<ListCell>, p: Ref)
    requires p == RefAt(cells, |cells| - 1, Nil)
    requires forall i :: 0 <= i < |cells| ==> cells[i].cdr == RefAt(cells, i - 1, Nil)
    ensures Chain(p, Backwards(cells), Nil)
  {
    var back := Backwards(cells);
    forall i | 0 <= i < |back| ensures back[i].cdr == RefAt(back, i + 1, Nil) {
      assert RefAt(back, i + 1, Nil) == RefAt(cells, |cells| - 2 - i, Nil);
    }
  }

  /**
   The end of a dotted list: what was collected is turned around, and the tail goes into the last
   cell. With nothing collected the store goes into a field of Nil that is never read.
   */
  method FinishDotted(head: Ref, last: Value, ghost cells: seq<ListCell>) returns (ret: Ref)
    requires Chain(head, cells, Nil) && Distinct(cells)
    modifies cells
    ensures Chain(ret, Backwards(cells), if cells == [] then Nil else last)
    ensures ListOf(Backwards(cells), if cells == [] then Nil else last) == Dotted(ListOf(cells, Nil), last)
  {
    ret := Reverse(head, cells);
    if head.At? {
      head.cell.cdr := End(last);
    }
    BackwardsIsReverse(cells, if cells == [] then Nil else last);
  }

  class Name {
    const text: string

    constructor (text: string)
      ensures this.text == text
    {
      this.text := text;
    }
  }

  /** The list of all symbols. */
  class SymbolTable {
    var symbols: seq<Name>

    /** No two symbols have the same name, so that comparing pointers compares names. */
    ghost predicate Valid()
      reads this
    {
      forall i, j :: 0 <= i < j < |symbols| ==> symbols[i].text != symbols[j].text
    }

    constructor ()
      ensures Valid() && symbols == []
    {
      symbols := [];
    }

    /** A symbol is created only for a new name; otherwise the one there is returned. */
    method Intern(name: string) returns (sym: Name)
      requires Valid()
      modifies this
      ensures Valid() && sym in symbols && sym.text == name
      ensures if exists s :: s in old(symbols) && s.text == name
              then symbols == old(symbols) else symbols == [sym] + old(symbols) && fresh(sym)
    {
      var i := 0;
      while i < |symbols|
        invariant 0 <= i <= |symbols| && forall j :: 0 <= j < i ==> symbols[j].text != name
      {
        if symbols[i].text == name {
          return symbols[i];
        }
        i := i + 1;
      }
      sym := new Name(name);
      symbols := [sym] + symbols;
    }
  }
}
