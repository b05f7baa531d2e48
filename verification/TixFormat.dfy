/** The text of a .tix file (rts/Hpc.c): what the writer prints, what the reader makes of any text, and
    that the two undo each other. */
module TixFormat {
  import opened Options

  const TWO32: nat := 0x1_0000_0000
  const TWO64: nat := 0x1_0000_0000_0000_0000

  /** The size of the reader's buffer for a module name. */
  const BUFFER: nat := 256

  /** HpcModuleInfo; the array of tick counts may be absent. */
  datatype Module = TixModule(name: string, hash: nat, count: nat, ticks: Option<seq<nat>>)

  /** What came of reading: `Failed` is the parse error on which the program exits, `Overflow` a module
      name that runs over the end of the reader's buffer. */
  datatype Parsed<T> = Ok(value: T, rest: string) | Failed | Overflow

  // ---------------------------------------------------------------- what is written

  /** A number as printed by %u or FMT_Word64. */
  function Digits(n: nat): (d: string)
    ensures |d| > 0
  {
    (if n < 10 then "" else Digits(n / 10)) + [('0' as int + n % 10) as char]
  }

  function Counts(m: Module): seq<nat> {
    match m.ticks
    case Some(a) => a
    case None => seq(m.count, _ => 0)
  }

  function TicksText(comma: bool, ticks: seq<nat>): string
    decreases |ticks|
  {
    if ticks == [] then "" else (if comma then "," else "") + Digits(ticks[0]) + TicksText(true, ticks[1..])
  }

  function HeaderText(m: Module): string {
    " TixModule \"" + m.name + "\" " + Digits(m.hash) + " " + Digits(m.count) + " ["
  }

  function ModuleText(m: Module): string {
    HeaderText(m) + TicksText(false, Counts(m)) + "]"
  }

  function ModulesText(comma: bool, ms: seq<Module>): string
    decreases |ms|
  {
    if ms == [] then "" else (if comma then "," else "") + ModuleText(ms[0]) + ModulesText(true, ms[1..])
  }

  function TixText(ms: seq<Module>): string {
    "Tix [" + ModulesText(false, ms) + "]\n"
  }

  /** The text of two modules, of which the second has no array yet. */
  lemma WrittenExample(m: Module, n: Module)
    requires m == TixModule("Main", 40, 2, Some([7, 0])) && n == TixModule("B", 5, 1, None)
    ensures TixText([m, n]) == "Tix [" + " TixModule \"Main\" 40 2 [7,0]" + "," + " TixModule \"B\" 5 1 [0]" + "]\n"
  {
    hide TixText, ModuleText;
    FirstText();
    SecondText();
    TwoModules(m, n);
  }

  lemma FirstText()
    ensures ModuleText(TixModule("Main", 40, 2, Some([7, 0]))) == " TixModule \"Main\" 40 2 [7,0]"
  {
    hide TicksText, Digits;
    DigitsOfSmall();
    TwoTicks(7, 0);
    assert HeaderText(TixModule("Main", 40, 2, Some([7, 0]))) == " TixModule \"Main\" 40 2 [";
  }

  lemma SecondText()
    ensures ModuleText(TixModule("B", 5, 1, None)) == " TixModule \"B\" 5 1 [0]"
  {
    hide TicksText, Digits;
    DigitsOfSmall();
    assert Counts(TixModule("B", 5, 1, None)) == [0];
    OneTick(0);
    assert HeaderText(TixModule("B", 5, 1, None)) == " TixModule \"B\" 5 1 [";
  }

  lemma DigitsOfSmall()
    ensures Digits(40) == "40" && Digits(2) == "2" && Digits(5) == "5" && Digits(1) == "1" && Digits(7) == "7" && Digits(0) == "0"
  {
    assert Digits(4) == "4";
  }

  lemma OneTick(a: nat)
    ensures TicksText(false, [a]) == Digits(a) && TicksText(true, [a]) == "," + Digits(a)
  {
    hide Digits;
    assert [a][1..] == [];
    assert TicksText(true, []) == "";
  }

  lemma TwoTicks(a: nat, b: nat)
    ensures TicksText(false, [a, b]) == Digits(a) + "," + Digits(b)
  {
    hide Digits;
    OneTick(b);
    assert [a, b][1..] == [b];
  }

  lemma TwoModules(m: Module, n: Module)
    ensures TixText([m, n]) == "Tix [" + ModuleText(m) + "," + ModuleText(n) + "]\n"
  {
    hide ModuleText;
    assert [m, n][1..] == [n] && [n][1..] == [];
    assert ModulesText(true, []) == "";
    assert ModulesText(true, [n]) == "," + ModuleText(n);
    assert ModulesText(false, [m, n]) == ModuleText(m) + ("," + ModuleText(n));
  }

  // ---------------------------------------------------------------- what is read

  predicate IsDigit(c: char) {
    '0' <= c <= '9'
  }

  function Blank(s: string): (r: string)
    ensures |r| <= |s|
  {
    if s != "" && s[0] == ' ' then Blank(s[1..]) else s
  }

  /** The digits at the front of s, in 64-bit arithmetic; no digits at all read as the number so far. */
  function Word(acc: nat, s: string): (r: (nat, string))
    requires acc < TWO64
    ensures r.0 < TWO64 && |r.1| <= |s|
    decreases |s|
  {
    if s != "" && IsDigit(s[0]) then Word((acc * 10 + (s[0] as int - '0' as int)) % TWO64, s[1..]) else (acc, s)
  }

  function Literal(w: string, s: string): (r: Parsed<()>)
    ensures r.Ok? ==> |r.rest| == |s| - |w|
  {
    if w <= s then Ok((), s[|w|..]) else Failed
  }

  /** The index of the first quote, or the length. */
  function QuoteAt(s: string): (i: nat)
    ensures i <= |s|
    ensures forall k :: 0 <= k < i ==> s[k] != '"'
    ensures i < |s| ==> s[i] == '"'
  {
    if s == "" || s[0] == '"' then 0 else 1 + QuoteAt(s[1..])
  }

  /** strcpy() stops at a NUL. */
  function CString(s: string): string {
    if s == "" || s[0] == '\0' then "" else [s[0]] + CString(s[1..])
  }

  function Name(s: string): (r: Parsed<string>)
    ensures r.Ok? ==> |r.rest| < |s|
  {
    if !("\"" <= s) then Failed
    else
      var i := QuoteAt(s[1..]);
      if i < |s| - 1 && i < BUFFER then Ok(CString(s[1..][..i]), s[1..][i + 1..]) else Overflow
  }

  function Comma(s: string): (r: string)
    ensures |r| <= |s|
  {
    if s != "" && s[0] == ',' then Blank(s[1..]) else s
  }

  function Ticks(n: nat, s: string): (r: (seq<nat>, string))
    ensures |r.0| == n && |r.1| <= |s|
  {
    if n == 0 then ([], s)
    else
      var (v, s1) := Word(0, s);
      var (vs, s2) := Ticks(n - 1, Comma(Blank(s1)));
      ([v] + vs, s2)
  }

  /** The part of a module between its name and its tick counts. */
  function Numbers(name: string, s: string): (r: Parsed<Module>)
    ensures r.Ok? ==> |r.rest| <= |s|
  {
    var (h, s1) := Word(0, Blank(s));
    var (n, s2) := Word(0, Blank(s1));
    var count := n % TWO32;
    match Literal("[", Blank(s2))
    case Ok(_, s3) =>
      var (ticks, s4) := Ticks(count, Blank(s3));
      (match Literal("]", s4)
       case Ok(_, s5) => Ok(TixModule(name, h % TWO32, count, Some(ticks)), Blank(s5))
       case _ => Failed)
    case _ => Failed
  }

  function OneModule(s: string): (r: Parsed<Module>)
    ensures r.Ok? ==> |r.rest| < |s|
  {
    match Literal("TixModule", s)
    case Ok(_, s1) =>
      (match Name(Blank(s1))
       case Ok(name, s2) => Numbers(name, s2)
       case Failed => Failed
       case Overflow => Overflow)
    case _ => Failed
  }

  function Modules(s: string): Parsed<seq<Module>>
    decreases |s|
  {
    if "]" <= s then Ok([], s)
    else
      match OneModule(s)
      case Ok(m, rest) => Prepend([m], Modules(Comma(rest)))
      case Failed => Failed
      case Overflow => Overflow
  }

  function Prepend(ms: seq<Module>, p: Parsed<seq<Module>>): Parsed<seq<Module>> {
    if p.Ok? then Ok(ms + p.value, p.rest) else p
  }

  function Tix(s: string): Parsed<seq<Module>> {
    match Literal("Tix", Blank(s))
    case Ok(_, s1) =>
      (match Literal("[", Blank(s1))
       case Ok(_, s2) =>
         (match Modules(Blank(s2))
          case Ok(ms, s3) => (match Literal("]", s3) case Ok(_, s4) => Ok(ms, s4) case _ => Failed)
          case Failed => Failed
          case Overflow => Overflow)
       case _ => Failed)
    case _ => Failed
  }

  // ---------------------------------------------------------------- round trip

  /** What the fields of an HpcModuleInfo can hold: a C string, 32-bit numbers, 64-bit ticks. */
  ghost predicate Storable(m: Module) {
    && '\0' !in m.name && m.hash < TWO32 && m.count < TWO32
    && (m.ticks.Some? ==> |m.ticks.value| == m.count && forall i :: 0 <= i < m.count ==> m.ticks.value[i] < TWO64)
  }

  /** A name that the reader can take back. */
  predicate Readable(name: string) {
    '"' !in name && |name| < BUFFER
  }

  /** An absent array is read back as zeros. */
  function Filled(m: Module): Module {
    m.(ticks := Some(Counts(m)))
  }

  function AllFilled(ms: seq<Module>): (r: seq<Module>)
    ensures |r| == |ms|
  {
    seq(|ms|, i requires 0 <= i < |ms| => Filled(ms[i]))
  }

  lemma DigitsAreDigits(n: nat)
    ensures forall i :: 0 <= i < |Digits(n)| ==> IsDigit(Digits(n)[i])
  {
  }

  lemma BlankOne(s: string)
    requires s != "" && s[0] != ' '
    ensures Blank(" " + s) == s && Blank(s) == s
  {
    assert (" " + s)[1..] == s;
  }

  lemma LiteralFront(w: string, t: string)
    ensures Literal(w, w + t) == Ok((), t)
  {
    assert (w + t)[..|w|] == w && (w + t)[|w|..] == t;
  }

  lemma WordStep(acc: nat, c: char, t: string)
    requires acc < TWO64 && IsDigit(c) && acc * 10 + (c as int - '0' as int) < TWO64
    ensures Word(acc, [c] + t) == Word(acc * 10 + (c as int - '0' as int), t)
  {
    assert ([c] + t)[1..] == t && ([c] + t)[0] == c;
  }

  lemma DigitsSplit(n: nat, t: string)
    ensures var c := ('0' as int + n % 10) as char;
      IsDigit(c) && c as int - '0' as int == n % 10
      && Digits(n) + t == (if n < 10 then [c] + t else Digits(n / 10) + ([c] + t))
  {
  }

  /** A printed number reads back as itself, whatever was read before it ends. */
  lemma {:induction false} WordOfDigits(n: nat, t: string)
    requires n < TWO64
    ensures Word(0, Digits(n) + t) == Word(n, t)
  {
    hide Word, Digits;
    var c := ('0' as int + n % 10) as char;
    DigitsSplit(n, t);
    if n < 10 {
      WordStep(0, c, t);
    } else {
      WordOfDigits(n / 10, [c] + t);
      WordStep(n / 10, c, t);
    }
  }

  lemma WordEnds(n: nat, t: string)
    requires n < TWO64 && (t == "" || !IsDigit(t[0]))
    ensures Word(0, Digits(n) + t) == (n, t)
  {
    WordOfDigits(n, t);
  }

  /** Digits stop the skipping of blanks. */
  lemma BlankDigits(n: nat, t: string)
    ensures Blank(" " + (Digits(n) + t)) == Digits(n) + t && Blank(Digits(n) + t) == Digits(n) + t
  {
    DigitsAreDigits(n);
    assert (Digits(n) + t)[0] == Digits(n)[0];
    BlankOne(Digits(n) + t);
  }

  lemma TicksTextSplit(ticks: seq<nat>, t: string)
    requires ticks != []
    ensures TicksText(false, ticks) + t == Digits(ticks[0]) + (TicksText(true, ticks[1..]) + t)
    ensures TicksText(true, ticks) + t == "," + (TicksText(false, ticks) + t)
  {
    var d, more := Digits(ticks[0]), TicksText(true, ticks[1..]);
    var f, c := TicksText(false, ticks), TicksText(true, ticks);
    assert f == "" + d + more && c == "," + d + more;
    hide Digits, TicksText;
    TextSplit(d, more, t);
    assert f == d + more;
  }

  lemma TextSplit(d: string, more: string, t: string)
    ensures "" + d + more == d + more && (d + more) + t == d + (more + t)
    ensures ("," + d + more) + t == "," + ((d + more) + t)
  {
  }

  /** The text of the tick counts begins with what Blank() leaves alone. */
  lemma TicksBlank(ticks: seq<nat>, t: string)
    requires t != "" && t[0] == ']'
    ensures Blank(TicksText(false, ticks) + t) == TicksText(false, ticks) + t
  {
    if ticks == [] {
      NoTicksText(t);
    } else {
      TicksTextSplit(ticks, t);
      BlankDigits(ticks[0], TicksText(true, ticks[1..]) + t);
    }
  }

  /** After a number comes a comma and the next number, or the end. */
  lemma CommaTicks(ticks: seq<nat>, t: string)
    requires t != "" && t[0] == ']'
    ensures var more := TicksText(true, ticks) + t;
      more != "" && !IsDigit(more[0]) && Comma(Blank(more)) == TicksText(false, ticks) + t
  {
    if ticks == [] {
      NoTicksText(t);
    } else {
      TicksTextSplit(ticks, t);
      TicksBlank(ticks, t);
      var rest := TicksText(false, ticks) + t;
      assert ("," + rest)[1..] == rest;
    }
  }

  lemma {:induction false} TicksOfText(ticks: seq<nat>, t: string)
    requires forall i :: 0 <= i < |ticks| ==> ticks[i] < TWO64
    requires t != "" && t[0] == ']'
    ensures Ticks(|ticks|, TicksText(false, ticks) + t) == (ticks, t)
    decreases |ticks|
  {
    if ticks == [] {
      NoTicksText(t);
    } else {
      hide Ticks, TicksText, Word, Blank, Comma, Digits, IsDigit;
      CommaTicks(ticks[1..], t);
      TicksTextSplit(ticks, t);
      WordEnds(ticks[0], TicksText(true, ticks[1..]) + t);
      TicksOfText(ticks[1..], t);
      TicksStep(ticks, TicksText(false, ticks) + t, TicksText(true, ticks[1..]) + t, t);
    }
  }

  lemma NoTicksText(t: string)
    ensures TicksText(false, []) + t == t && TicksText(true, []) + t == t
  {
  }

  lemma TicksStep(ticks: seq<nat>, s: string, more: string, t: string)
    requires ticks != [] && ticks[0] < TWO64
    requires Word(0, s) == (ticks[0], more) && Ticks(|ticks| - 1, Comma(Blank(more))) == (ticks[1..], t)
    ensures Ticks(|ticks|, s) == (ticks, t)
  {
    hide Word, Comma, Blank;
    assert ticks == [ticks[0]] + ticks[1..];
  }

  lemma CountsFit(m: Module)
    requires Storable(m)
    ensures |Counts(m)| == m.count && forall i :: 0 <= i < m.count ==> Counts(m)[i] < TWO64
  {
  }

  /** The text of a module after its name, with what follows it. */
  function TailText(m: Module, t: string): string {
    " " + (Digits(m.hash) + (" " + (Digits(m.count) + (" " + ("[" + (TicksText(false, Counts(m)) + ("]" + t)))))))
  }

  lemma NumbersOfText(m: Module, name: string, t: string)
    requires Storable(m)
    requires t != "" && t[0] != ' '
    ensures Numbers(name, TailText(m, t)) == Ok(Filled(m).(name := name), t)
  {
    hide Digits, Word, Blank, Ticks, TicksText, Literal, Counts;
    CountsFit(m);
    var s4 := TicksText(false, Counts(m)) + ("]" + t);
    var s3 := " " + ("[" + s4);
    var s2 := " " + (Digits(m.count) + s3);
    BlankDigits(m.hash, s2);
    WordEnds(m.hash, s2);
    BlankDigits(m.count, s3);
    WordEnds(m.count, s3);
    BlankOne("[" + s4);
    LiteralFront("[", s4);
    TicksBlank(Counts(m), "]" + t);
    TicksOfText(Counts(m), "]" + t);
    LiteralFront("]", t);
    BlankOne(t);
  }

  lemma {:induction false} CStringWhole(s: string)
    requires '\0' !in s
    ensures CString(s) == s
  {
    if s != "" {
      CStringWhole(s[1..]);
      assert s == [s[0]] + s[1..];
    }
  }

  lemma {:induction false} QuoteAfter(name: string, t: string)
    requires '"' !in name
    ensures QuoteAt(name + "\"" + t) == |name|
  {
    var s := name + "\"" + t;
    if name != "" {
      assert s[0] == name[0] && s[1..] == name[1..] + "\"" + t;
      QuoteAfter(name[1..], t);
    }
  }

  /** A name is read back whole exactly if it is readable. */
  lemma NameOfText(name: string, t: string)
    requires '\0' !in name
    ensures Readable(name) ==> Name("\"" + name + "\"" + t) == Ok(name, t)
    ensures !Readable(name) ==> var p := Name("\"" + name + "\"" + t); !p.Ok? || p.value != name
  {
    var s := name + "\"" + t;
    assert "\"" + name + "\"" + t == "\"" + s && ("\"" + s)[1..] == s;
    var i := QuoteAt(s);
    if '"' !in name {
      QuoteAfter(name, t);
      assert s[..i] == name && s[i + 1..] == t;
      CStringWhole(name);
    } else {
      var k :| 0 <= k < |name| && name[k] == '"';
      assert s[k] == '"';
      assert i <= k && s[..i] == name[..i];
      CStringWhole(name[..i]);
    }
  }

  /** The text of a module without its first blank, grouped as the reader takes it apart. */
  function FullText(m: Module, t: string): string {
    "TixModule" + (" " + ("\"" + m.name + "\"" + TailText(m, t)))
  }

  lemma Regroup(a: string, n: string, b: string, h: string, c: string, k: string, d: string, ts: string, e: string, t: string)
    ensures a + n + b + h + c + k + d + ts + e + t == a + (n + (b + (h + (c + (k + (d + (ts + (e + t))))))))
  {
  }

  lemma ModuleTextIs(m: Module, t: string)
    ensures ModuleText(m) + t == " " + FullText(m, t)
  {
    hide Digits, TicksText, Counts;
    Regroup(" TixModule \"", m.name, "\" ", Digits(m.hash), " ", Digits(m.count), " [", TicksText(false, Counts(m)), "]", t);
    ShortRegroup(m.name, Digits(m.hash), Digits(m.count), TicksText(false, Counts(m)) + ("]" + t));
  }

  lemma ShortRegroup(n: string, h: string, k: string, x: string)
    ensures " TixModule \"" + (n + ("\" " + (h + (" " + (k + (" [" + x))))))
            == " " + ("TixModule" + (" " + ("\"" + n + "\"" + (" " + (h + (" " + (k + (" " + ("[" + x)))))))))
  {
    assert " [" + x == " " + ("[" + x);
    var y := h + (" " + (k + (" " + ("[" + x))));
    assert "\" " + y == "\"" + (" " + y);
    var z := " " + y;
    assert n + ("\"" + z) == n + "\"" + z;
    assert " TixModule \"" + (n + "\"" + z) == " " + ("TixModule" + (" " + ("\"" + n + "\"" + z)));
  }

  /** One module is read back exactly if its name is readable; else its name at least is lost. */
  lemma ModuleOfText(m: Module, t: string)
    requires Storable(m) && t != "" && t[0] != ' '
    ensures Blank(ModuleText(m) + t) == FullText(m, t) && !("]" <= FullText(m, t))
    ensures Readable(m.name) ==> OneModule(FullText(m, t)) == Ok(Filled(m), t)
    ensures !Readable(m.name) ==> var p := OneModule(FullText(m, t)); !p.Ok? || p.value.name != m.name
  {
    hide ModuleText, TailText, Blank, Literal, Name, Numbers;
    ModuleTextIs(m, t);
    var s1 := "\"" + m.name + "\"" + TailText(m, t);
    assert FullText(m, t)[0] == 'T' && s1[0] == '"';
    BlankOne(FullText(m, t));
    LiteralFront("TixModule", " " + s1);
    BlankOne(s1);
    NameOfText(m.name, TailText(m, t));
    NumbersOfText(m, m.name, t);
    NamesStay(m.name, s1);
  }

  lemma NamesStay(name: string, s: string)
    ensures Name(s).Ok? ==> var p := Numbers(Name(s).value, Name(s).rest); p.Ok? ==> p.value.name == Name(s).value
  {
  }

  lemma ModulesTextSplit(ms: seq<Module>, t: string)
    requires ms != []
    ensures ModulesText(false, ms) + t == ModuleText(ms[0]) + (ModulesText(true, ms[1..]) + t)
    ensures ModulesText(true, ms) + t == "," + (ModulesText(false, ms) + t)
  {
    var d, more := ModuleText(ms[0]), ModulesText(true, ms[1..]);
    var f, c := ModulesText(false, ms), ModulesText(true, ms);
    assert f == "" + d + more && c == "," + d + more;
    hide ModuleText, ModulesText;
    TextSplit(d, more, t);
    assert f == d + more;
  }

  /** After a module comes a comma and the next module, or the end. */
  lemma CommaModules(ms: seq<Module>, t: string)
    requires t != "" && t[0] == ']'
    ensures var more := ModulesText(true, ms) + t;
      more != "" && more[0] != ' ' && Comma(more) == Blank(ModulesText(false, ms) + t)
  {
    if ms == [] {
      assert ModulesText(true, ms) + t == t && ModulesText(false, ms) + t == t;
    } else {
      ModulesTextSplit(ms, t);
      var rest := ModulesText(false, ms) + t;
      assert ("," + rest)[1..] == rest;
    }
  }

  ghost predicate AllStorable(ms: seq<Module>) {
    forall i :: 0 <= i < |ms| ==> Storable(ms[i])
  }

  ghost predicate AllReadable(ms: seq<Module>) {
    forall i :: 0 <= i < |ms| ==> Readable(ms[i].name)
  }

  lemma AllSplit(ms: seq<Module>)
    requires ms != []
    ensures AllStorable(ms) <==> Storable(ms[0]) && AllStorable(ms[1..])
    ensures AllReadable(ms) <==> Readable(ms[0].name) && AllReadable(ms[1..])
    ensures AllFilled(ms) == [Filled(ms[0])] + AllFilled(ms[1..])
  {
    hide Storable, Readable;
    assert forall i :: 0 < i < |ms| ==> ms[i] == ms[1..][i - 1];
  }

  /** The list of modules reads back exactly if all names are readable. */
  lemma {:induction false} ModulesOfText(ms: seq<Module>, t: string)
    requires AllStorable(ms)
    requires t != "" && t[0] == ']'
    ensures AllReadable(ms) ==> Modules(Blank(ModulesText(false, ms) + t)) == Ok(AllFilled(ms), t)
    ensures var p := Modules(Blank(ModulesText(false, ms) + t)); p.Ok? && p.value == AllFilled(ms) ==> AllReadable(ms)
    decreases |ms|
  {
    if ms == [] {
      assert ModulesText(false, ms) + t == t;
    } else {
      hide Modules, ModuleText, FullText, Blank, Comma, OneModule, Storable, Readable, AllFilled, AllStorable, AllReadable, ModulesText;
      var more := ModulesText(true, ms[1..]) + t;
      AllSplit(ms);
      ModulesTextSplit(ms, t);
      CommaModules(ms[1..], t);
      ModuleOfText(ms[0], more);
      ModulesOfText(ms[1..], t);
      ModulesStep(FullText(ms[0], more), ms[0], AllFilled(ms[1..]));
    }
  }

  /** One round of the reader's loop: what is read is as wanted if the module and the others are. */
  lemma ModulesStep(s: string, m: Module, ms: seq<Module>)
    requires !("]" <= s)
    ensures var p := Modules(s); p.Ok? && p.value == [Filled(m)] + ms <==>
      OneModule(s).Ok? && OneModule(s).value == Filled(m)
      && Modules(Comma(OneModule(s).rest)).Ok? && Modules(Comma(OneModule(s).rest)).value == ms
    ensures Modules(s).Ok? ==> OneModule(s).Ok? && Modules(Comma(OneModule(s).rest)).Ok?
                               && Modules(s).rest == Modules(Comma(OneModule(s).rest)).rest
  {
    hide OneModule, Comma;
    var one := OneModule(s);
    if one.Ok? {
      var p := Modules(Comma(one.rest));
      if p.Ok? && [one.value] + p.value == [Filled(m)] + ms {
        assert ([one.value] + p.value)[0] == one.value && ([Filled(m)] + ms)[0] == Filled(m);
        assert ([one.value] + p.value)[1..] == p.value && ([Filled(m)] + ms)[1..] == ms;
      }
    }
  }

  /** Reading what was written gives back the modules, in order and with every number, exactly if no
      name contains a quote and all fit the buffer. */
  lemma RoundTrip(ms: seq<Module>)
    requires AllStorable(ms)
    ensures AllReadable(ms) ==> Tix(TixText(ms)) == Ok(AllFilled(ms), "\n")
    ensures var p := Tix(TixText(ms)); p.Ok? && p.value == AllFilled(ms) ==> AllReadable(ms)
  {
    hide Modules, ModulesText, Blank, Literal, AllStorable, AllReadable, AllFilled;
    var t := "]\n";
    var s2 := ModulesText(false, ms) + t;
    var s := "Tix" + (" " + ("[" + s2));
    assert TixText(ms) == s by {
      TixRegroup(ModulesText(false, ms));
    }
    assert s[0] == 'T';
    BlankOne(s);
    LiteralFront("Tix", " " + ("[" + s2));
    BlankOne("[" + s2);
    LiteralFront("[", s2);
    LiteralFront("]", "\n");
    assert t == "]" + "\n";
    ModulesOfText(ms, t);
  }

  lemma TixRegroup(x: string)
    ensures "Tix [" + x + "]\n" == "Tix" + (" " + ("[" + (x + "]\n")))
  {
  }

  /** What is read is storable again, so that a file which was read can be written and read as often as
      one likes. */
  lemma {:induction false} ReadIsStorable(s: string)
    requires Modules(s).Ok?
    ensures AllStorable(Modules(s).value) && AllReadable(Modules(s).value)
    decreases |s|
  {
    if !("]" <= s) {
      ReadIsStorable(Comma(OneModule(s).rest));
      OneIsStorable(s);
    }
  }

  lemma OneIsStorable(s: string)
    requires OneModule(s).Ok?
    ensures Storable(OneModule(s).value) && Readable(OneModule(s).value.name)
  {
    var s1 := Blank(s[9..]);
    var i := QuoteAt(s1[1..]);
    CStringPart(s1[1..][..i]);
    var n := Name(s1);
    var c := Word(0, Blank(Word(0, Blank(n.rest)).1));
    TicksFit(c.0 % TWO32, Blank(Blank(c.1)[1..]));
  }

  lemma {:induction false} CStringPart(s: string)
    ensures '\0' !in CString(s) && |CString(s)| <= |s| && forall c :: c in CString(s) ==> c in s
  {
    if s != "" {
      CStringPart(s[1..]);
    }
  }

  lemma {:induction false} TicksFit(n: nat, s: string)
    ensures forall i :: 0 <= i < n ==> Ticks(n, s).0[i] < TWO64
  {
    if n > 0 {
      TicksFit(n - 1, Comma(Blank(Word(0, s).1)));
    }
  }

  /** A file that the reader accepts comes to rest: writing out what was read and reading it again gives
      the same modules. */
  lemma ReadWriteRead(s: string)
    requires Tix(s).Ok?
    ensures Tix(TixText(Tix(s).value)) == Ok(Tix(s).value, "\n")
  {
    var s2 := Literal("[", Blank(Literal("Tix", Blank(s)).rest)).rest;
    var ms := Tix(s).value;
    assert Modules(Blank(s2)).Ok? && Modules(Blank(s2)).value == ms;
    ReadIsStorable(Blank(s2));
    FilledAlready(Blank(s2));
    RoundTrip(ms);
    assert AllFilled(ms) == ms;
  }

  lemma {:induction false} FilledAlready(s: string)
    requires Modules(s).Ok?
    ensures forall i :: 0 <= i < |Modules(s).value| ==> Filled(Modules(s).value[i]) == Modules(s).value[i]
    decreases |s|
  {
    if !("]" <= s) {
      FilledAlready(Comma(OneModule(s).rest));
    }
  }
}
