/** The writer and the reader of .tix files (rts/Hpc.c): the reader goes through the file character by
    character with one character of lookahead. */
module TixFile {
  import opened Options

  import opened TixFormat

  const EOF := -1

  /** How a step of the reader ends; everything but `Fine` ends the program. */
  datatype Status = Fine | ParseError | OutOfBounds {
    predicate IsFailure() { !Fine? }
    function PropagateFailure(): Status
      requires IsFailure()
    {
      this
    }
  }

  /** writeTix(). */
  method WriteTix(modules: seq<Module>) returns (out: string)
    requires forall i :: 0 <= i < |modules| && modules[i].ticks.Some? ==> |modules[i].ticks.value| == modules[i].count
    ensures out == TixText(modules)
  {
    hide TixText, ModulesText, ModuleText, HeaderText, Counts;
    out := "Tix [";
    TextIs(modules);
    var outerComma := false;
    for i := 0 to |modules|
      invariant outerComma == (i > 0)
      invariant out + (ModulesText(outerComma, modules[i..]) + "]\n") == TixText(modules)
    {
      var m := modules[i];
      ModulesTextStep(outerComma, modules[i..], "]\n");
      assert modules[i..][1..] == modules[i + 1..];
      ghost var rest := ModulesText(true, modules[i + 1..]) + "]\n";
      ghost var out0 := out;
      if outerComma {
        out := out + ",";
      } else {
        outerComma := true;
      }
      Assoc(out0, if i > 0 then "," else "", ModuleText(m) + rest);
      assert out + (ModuleText(m) + rest) == TixText(modules);
      out := WriteModule(out, m);
      Assoc(out, "", rest);
    }
    assert modules[|modules|..] == [];
    NoModules();
    out := out + "]\n";
  }

  /** The body of its loop. */
  method WriteModule(out0: string, m: Module) returns (out: string)
    requires m.ticks.Some? ==> |m.ticks.value| == m.count
    ensures forall rest: string :: out0 + (ModuleText(m) + rest) == out + rest
  {
    hide TicksText, Digits, HeaderText;
    out := out0 + HeaderText(m);
    ghost var out1 := out;
    ghost var counts := Counts(m);
    ghost var text := TicksText(false, counts);
    var innerComma := false;
    for i := 0 to m.count
      invariant innerComma == (i > 0) && i <= |counts|
      invariant out + TicksText(innerComma, counts[i..]) == out1 + text
    {
      ghost var before := out;
      TicksTextStep(innerComma, counts[i..]);
      assert counts[i..][1..] == counts[i + 1..];
      if innerComma {
        out := out + ",";
      } else {
        innerComma := true;
      }
      Assoc(before, if i > 0 then "," else "", Digits(counts[i]) + TicksText(true, counts[i + 1..]));
      ghost var comma := out;
      if m.ticks.Some? {
        out := out + Digits(m.ticks.value[i]);
      } else {
        ZeroText();
        out := out + "0";
      }
      Assoc(comma, Digits(counts[i]), TicksText(true, counts[i + 1..]));
    }
    assert counts[m.count..] == [];
    NoTicks(innerComma);
    assert out == out1 + text;
    out := out + "]";
    forall rest: string ensures out0 + (ModuleText(m) + rest) == out + rest {
      Assoc4(out0, HeaderText(m), text, "]", rest);
    }
  }

  /** The open file; `tixCh` is the next character to look at. */
  class Reader {
    const file: string
    var pos: nat
    var tixCh: int

    ghost predicate Valid()
      reads this
    {
      pos <= |file| && tixCh == if pos < |file| then file[pos] as int else EOF
    }

    /** What is still to be read. */
    ghost function Rest(): string
      requires Valid()
      reads this
    {
      file[pos..]
    }

    /** init_open(). */
    constructor (text: string)
      ensures Valid() && Rest() == text && fresh(this)
    {
      file, pos := text, 0;
      tixCh := if text != "" then text[0] as int else EOF;
    }

    /** getc(); at the end of the file it returns EOF for ever. */
    method Getc()
      requires Valid()
      modifies this
      ensures Valid() && Rest() == if old(Rest()) == "" then "" else old(Rest())[1..]
    {
      if pos < |file| {
        pos := pos + 1;
      }
      tixCh := if pos < |file| then file[pos] as int else EOF;
    }

    method Expect(c: char) returns (r: Status)
      requires Valid()
      modifies this
      ensures Valid()
      ensures match Literal([c], old(Rest()))
              case Ok(_, rest) => r == Fine && Rest() == rest
              case Failed => r == ParseError && Rest() == old(Rest())
              case Overflow => false
    {
      assert tixCh == c as int <==> Rest() != "" && Rest()[0] == c;
      if tixCh != c as int {
        return ParseError;
      }
      Getc();
      return Fine;
    }

    method Ws()
      requires Valid()
      modifies this
      ensures Valid() && Rest() == Blank(old(Rest()))
    {
      while tixCh == ' ' as int
        invariant Valid() && Blank(Rest()) == Blank(old(Rest()))
        decreases |Rest()|
      {
        Getc();
      }
    }

    /** The loop of expectString(): up to the quote, or until the buffer would be overrun. (A file that
        ends within a name fills the rest of the buffer with EOF, and then overruns it.) */
    method Fill(tmp: array<char>) returns (ok: bool, tmpIx: nat)
      requires Valid() && tmp.Length == BUFFER
      modifies this, tmp
      ensures Valid() && tmpIx <= QuoteAt(old(Rest()))
      ensures ok ==> tmpIx < BUFFER && tmpIx == QuoteAt(old(Rest())) && tmp[..tmpIx] == old(Rest())[..tmpIx]
                     && Rest() == old(Rest())[tmpIx..] && Rest() != ""
      ensures !ok ==> QuoteAt(old(Rest())) == |old(Rest())| || QuoteAt(old(Rest())) >= BUFFER
    {
      hide QuoteAt;
      ghost var s := Rest();
      tmpIx := 0;
      while tixCh != '"' as int
        invariant Valid() && tmpIx <= |s| && tmpIx <= BUFFER && Rest() == s[tmpIx..]
        invariant forall k :: 0 <= k < tmpIx ==> tmp[k] == s[k]
        invariant tmpIx <= QuoteAt(s)
        decreases |s| - tmpIx
      {
        if tmpIx == BUFFER || tixCh == EOF {
          return false, tmpIx;
        }
        assert s[tmpIx..][0] == s[tmpIx] && s[tmpIx..][1..] == s[tmpIx + 1..];
        tmp[tmpIx] := tixCh as char;
        tmpIx := tmpIx + 1;
        Getc();
      }
      ok := tmpIx < BUFFER;
    }

    /** The buffer holds at most 256 characters, the closing NUL among them. */
    method ExpectString() returns (r: Status, res: string)
      requires Valid()
      modifies this
      ensures Valid()
      ensures match Name(old(Rest()))
              case Ok(name, rest) => r == Fine && res == name && Rest() == rest
              case Failed => r == ParseError
              case Overflow => r == OutOfBounds
    {
      hide Name, Literal, QuoteAt, CString;
      NameCases(Rest());
      res := "";
      r := Expect('"');
      if r != Fine {
        return;
      }
      ghost var s := Rest();
      var tmp := new char[BUFFER];
      var ok, tmpIx := Fill(tmp);
      if !ok {
        return OutOfBounds, res;
      }
      tmp[tmpIx] := '\0';
      r := Expect('"');
      res := StrCpy(tmp, tmpIx);
    }

    method ExpectWord64() returns (tmp: nat)
      requires Valid()
      modifies this
      ensures Valid() && (tmp, Rest()) == Word(0, old(Rest()))
    {
      tmp := 0;
      while '0' as int <= tixCh <= '9' as int
        invariant Valid() && tmp < TWO64 && Word(tmp, Rest()) == Word(0, old(Rest()))
        decreases |Rest()|
      {
        tmp := (tmp * 10 + (tixCh - '0' as int)) % TWO64;
        Getc();
      }
    }

    method SkipComma()
      requires Valid()
      modifies this
      ensures Valid() && Rest() == Comma(old(Rest()))
    {
      if tixCh == ',' as int {
        var r := Expect(',');
        Ws();
      }
    }

    method ReadTicks(count: nat) returns (tixArr: seq<nat>)
      requires Valid()
      modifies this
      ensures Valid() && (tixArr, Rest()) == Ticks(count, old(Rest()))
    {
      hide Word, Blank, Comma, Ticks;
      tixArr := [];
      ghost var s := Rest();
      JoinNone(Ticks(count, s));
      for i := 0 to count
        invariant Valid() && Join(tixArr, Ticks(count - i, Rest())) == Ticks(count, s)
      {
        JoinTick(tixArr, count - i, Rest());
        var v := ExpectWord64();
        Ws();
        SkipComma();
        tixArr := tixArr + [v];
      }
      JoinEnd(tixArr, Rest());
    }

    /** One round of the loop of readTix(). */
    method ReadModule() returns (r: Status, m: Module)
      requires Valid()
      modifies this
      ensures Valid()
      ensures match OneModule(old(Rest()))
              case Ok(m', rest) => r == Fine && m == m' && Rest() == rest
              case Failed => r == ParseError
              case Overflow => r == OutOfBounds
    {
      hide Literal, Blank, Numbers, Name;
      m := TixModule("", 0, 0, None);
      r := ExpectTixModule();
      if r.IsFailure() {
        return;
      }
      Ws();
      var name;
      r, name := ExpectString();
      if r.IsFailure() {
        return;
      }
      r, m := ReadNumbers(name);
    }

    method ReadNumbers(name: string) returns (r: Status, m: Module)
      requires Valid()
      modifies this
      ensures Valid()
      ensures match Numbers(name, old(Rest()))
              case Ok(m', rest) => r == Fine && m == m' && Rest() == rest
              case Failed => r == ParseError
              case Overflow => false
    {
      hide Word, Blank, Ticks, Literal;
      m := TixModule(name, 0, 0, None);
      Ws();
      var hash := ExpectWord64();
      Ws();
      var count := ExpectWord64();
      Ws();
      r := Expect('[');
      if r.IsFailure() {
        return;
      }
      Ws();
      var tixArr := ReadTicks(count % TWO32);
      r := Expect(']');
      if r.IsFailure() {
        return;
      }
      Ws();
      m := TixModule(name, hash % TWO32, count % TWO32, Some(tixArr));
    }

    method ExpectTixModule() returns (r: Status)
      requires Valid()
      modifies this
      ensures Valid()
      ensures match Literal("TixModule", old(Rest()))
              case Ok(_, rest) => r == Fine && Rest() == rest
              case Failed => r == ParseError
              case Overflow => false
    {
      hide Literal;
      assert "TixModule" == "Tix" + ("Mod" + "ule");
      LiteralJoin("Tix", "Mod" + "ule", Rest());
      :- Expect3('T', 'i', 'x');
      LiteralJoin("Mod", "ule", Rest());
      :- Expect3('M', 'o', 'd');
      :- Expect3('u', 'l', 'e');
      return Fine;
    }

    method Expect3(c: char, d: char, e: char) returns (r: Status)
      requires Valid()
      modifies this
      ensures Valid()
      ensures match Literal([c, d, e], old(Rest()))
              case Ok(_, rest) => r == Fine && Rest() == rest
              case Failed => r == ParseError
              case Overflow => false
    {
      hide Literal;
      assert [c, d, e] == [c] + ([d] + [e]);
      LiteralJoin([c], [d] + [e], Rest());
      :- Expect(c);
      LiteralJoin([d], [e], Rest());
      :- Expect(d);
      :- Expect(e);
      return Fine;
    }

    /** The loop of readTix(); merging the modules with those registered is not part of this model. */
    method ReadModules() returns (r: Status, ms: seq<Module>)
      requires Valid()
      modifies this
      ensures Valid()
      ensures match Modules(old(Rest()))
              case Ok(ms', rest) => r == Fine && ms == ms' && Rest() == rest
              case Failed => r == ParseError
              case Overflow => r == OutOfBounds
    {
      hide OneModule, Comma;
      ms := [];
      ghost var s := Rest();
      PrependNone(Modules(s));
      while tixCh != ']' as int
        invariant Valid() && Prepend(ms, Modules(Rest())) == Modules(s)
        decreases |Rest()|
      {
        ghost var now := Rest();
        assert !("]" <= now);
        var m;
        r, m := ReadModule();
        if r.IsFailure() {
          return;
        }
        SkipComma();
        PrependBoth(ms, m, Modules(Rest()));
        ms := ms + [m];
      }
      assert ms + [] == ms;
      r := Fine;
    }

    /** readTix() up to and including the closing bracket. */
    method ReadTix() returns (r: Status, ms: seq<Module>)
      requires Valid()
      modifies this
      ensures Valid()
      ensures match Tix(old(Rest()))
              case Ok(ms', rest) => r == Fine && ms == ms' && Rest() == rest
              case Failed => r == ParseError
              case Overflow => r == OutOfBounds
    {
      hide Modules, Blank, Literal;
      ms := [];
      Ws();
      r := Expect3('T', 'i', 'x');
      if r.IsFailure() {
        return;
      }
      Ws();
      r := Expect('[');
      if r.IsFailure() {
        return;
      }
      Ws();
      r, ms := ReadModules();
      if r.IsFailure() {
        return;
      }
      r := Expect(']');
    }
  }

  /** strcpy(), up to the NUL at index n. */
  method StrCpy(tmp: array<char>, n: nat) returns (res: string)
    requires n < tmp.Length && tmp[n] == '\0'
    ensures res == CString(tmp[..n])
  {
    res := "";
    var i := 0;
    while tmp[i] != '\0'
      invariant i <= n && res + CString(tmp[i..n]) == CString(tmp[..n])
      decreases n - i
    {
      assert tmp[i..n][1..] == tmp[i + 1..n];
      res := res + [tmp[i]];
      i := i + 1;
    }
  }

  /** exitHpc() followed by startupHpc() in the next run: the modules come back, exactly if no name
      contains a quote and all fit the buffer. */
  method WriteThenRead(modules: seq<Module>) returns (r: Status, back: seq<Module>)
    requires AllStorable(modules)
    ensures r == Fine && back == AllFilled(modules) <==> AllReadable(modules)
  {
    RoundTrip(modules);
    assert forall i :: 0 <= i < |modules| ==> Storable(modules[i]);
    hide Tix, AllStorable, AllReadable, AllFilled, TixText;
    var out := WriteTix(modules);
    var reader := new Reader(out);
    r, back := reader.ReadTix();
  }

  // ---------------------------------------------------------------- texts piece by piece

  lemma Assoc(a: string, b: string, c: string)
    ensures a + (b + c) == (a + b) + c && a + "" == a
  {
  }

  lemma Assoc4(a: string, b: string, c: string, d: string, e: string)
    ensures a + ((b + c + d) + e) == a + b + c + d + e
    ensures a + ((b + c + d) + e) == (((a + b) + c) + d) + e
  {
  }

  lemma TextIs(ms: seq<Module>)
    ensures TixText(ms) == "Tix [" + (ModulesText(false, ms) + "]\n") && ms[0..] == ms
  {
    hide ModulesText;
    Assoc("Tix [", ModulesText(false, ms), "]\n");
  }

  lemma ModulesTextStep(comma: bool, ms: seq<Module>, t: string)
    requires ms != []
    ensures ModulesText(comma, ms) + t == (if comma then "," else "") + (ModuleText(ms[0]) + (ModulesText(true, ms[1..]) + t))
  {
    hide ModuleText;
  }

  lemma NoModules()
    ensures ModulesText(true, []) == "" && ModulesText(false, []) == ""
  {
  }

  lemma TicksTextStep(comma: bool, ticks: seq<nat>)
    requires ticks != []
    ensures TicksText(comma, ticks) == (if comma then "," else "") + (Digits(ticks[0]) + TicksText(true, ticks[1..]))
  {
    hide Digits;
  }

  lemma NoTicks(comma: bool)
    ensures TicksText(comma, []) == ""
  {
  }

  lemma ZeroText()
    ensures Digits(0) == "0"
  {
  }

  lemma NameCases(s0: string)
    ensures match Literal(['"'], s0)
            case Ok(_, s) =>
              var i := QuoteAt(s);
              if i < |s| && i < BUFFER
              then Name(s0) == Ok(CString(s[..i]), s[i + 1..]) && Literal(['"'], s[i..]) == Ok((), s[i + 1..])
              else Name(s0) == Overflow
            case _ => Name(s0) == Failed
  {
    hide QuoteAt, CString;
    if "\"" <= s0 {
      var s := s0[1..];
      var i := QuoteAt(s);
      if i < |s| {
        assert s[i..][0] == '"' && s[i..][1..] == s[i + 1..];
      }
    }
  }

  lemma LiteralJoin(v: string, w: string, s: string)
    ensures Literal(v + w, s) == if Literal(v, s).Ok? then Literal(w, Literal(v, s).rest) else Failed
  {
    if v + w <= s {
      assert s[..|v|] == (v + w)[..|v|] == v && s[|v|..][..|w|] == (v + w)[|v|..] == w;
    }
    if v <= s && w <= s[|v|..] {
      assert s[..|v| + |w|] == v + w;
    }
  }

  ghost function Join(ticks: seq<nat>, p: (seq<nat>, string)): (seq<nat>, string) {
    (ticks + p.0, p.1)
  }

  lemma JoinNone(p: (seq<nat>, string))
    ensures Join([], p) == p
  {
    assert [] + p.0 == p.0;
  }

  lemma JoinEnd(ticks: seq<nat>, s: string)
    ensures Join(ticks, Ticks(0, s)) == (ticks, s)
  {
    assert ticks + [] == ticks;
  }

  lemma JoinTick(ticks: seq<nat>, n: nat, s: string)
    requires n > 0
    ensures var (v, s1) := Word(0, s); Join(ticks, Ticks(n, s)) == Join(ticks + [v], Ticks(n - 1, Comma(Blank(s1))))
  {
    hide Word, Blank, Comma;
    var (v, s1) := Word(0, s);
    var (vs, s2) := Ticks(n - 1, Comma(Blank(s1)));
    assert ticks + ([v] + vs) == (ticks + [v]) + vs;
  }

  lemma PrependNone(p: Parsed<seq<Module>>)
    ensures Prepend([], p) == p
  {
    if p.Ok? {
      assert [] + p.value == p.value;
    }
  }

  lemma PrependBoth(ms: seq<Module>, m: Module, p: Parsed<seq<Module>>)
    ensures Prepend(ms, Prepend([m], p)) == Prepend(ms + [m], p)
  {
    if p.Ok? {
      assert ms + ([m] + p.value) == (ms + [m]) + p.value;
    }
  }
}
