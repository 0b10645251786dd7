/** The output dialects and the text of every line the header generator writes:
    the include guard, base-address macros, register macros with their address
    expressions, and the field offset and mask macros. */
module Formats {
  import opened Text
  import opened Rdl

  // ---------------------------------------------------------------------------
  // Results and errors

  /** Both errors the generator raises are Python `TypeError`s. */
  datatype Error = TypeError(message: string)

  datatype Result<T> = Ok(value: T) | Err(error: Error)

  datatype Option<T> = None | Some(value: T)

  // ---------------------------------------------------------------------------
  // Dialects and constructor options

  datatype Language = Verilog | C | Cpp

  const LanguageNames: set<string> := {"verilog", "c", "cpp"}

  function LanguageNamed(name: string): Language
    requires name in LanguageNames
  {
    if name == "verilog" then Verilog else if name == "c" then C else Cpp
  }

  /** `kwargs.pop("languages", "verilog")`: the value given for `languages`, or the default. */
  function LanguageOption(kwargs: seq<(string, string)>): string
  {
    if kwargs == [] then "verilog"
    else if kwargs[0].0 == "languages" then kwargs[0].1
    else LanguageOption(kwargs[1..])
  }

  /** Whether every keyword argument is `languages`. */
  predicate NoStrayKeys(kwargs: seq<(string, string)>)
  {
    forall i :: 0 <= i < |kwargs| ==> kwargs[i].0 == "languages"
  }

  /** The keyword arguments left once `languages` has been popped, in call order. */
  function StrayKeys(kwargs: seq<(string, string)>): seq<string>
  {
    if kwargs == [] then []
    else (if kwargs[0].0 == "languages" then [] else [kwargs[0].0]) + StrayKeys(kwargs[1..])
  }

  /** No key is left exactly when every key is `languages`; otherwise the first left
      is the first key, in call order, that is not `languages`. */
  lemma {:induction false} StrayKeysFirst(kwargs: seq<(string, string)>)
    ensures StrayKeys(kwargs) == [] <==> NoStrayKeys(kwargs)
    ensures StrayKeys(kwargs) != [] ==>
      exists i :: 0 <= i < |kwargs| && kwargs[i].0 == StrayKeys(kwargs)[0] && kwargs[i].0 != "languages" &&
        forall j :: 0 <= j < i ==> kwargs[j].0 == "languages"
  {
    if kwargs != [] {
      var tail := kwargs[1..];
      StrayKeysFirst(tail);
      assert forall j :: 0 < j < |kwargs| ==> kwargs[j] == tail[j - 1];
      if kwargs[0].0 == "languages" {
        assert NoStrayKeys(kwargs) <==> NoStrayKeys(tail);
        if StrayKeys(tail) != [] {
          var i :| 0 <= i < |tail| && tail[i].0 == StrayKeys(tail)[0] && tail[i].0 != "languages" &&
            forall j :: 0 <= j < i ==> tail[j].0 == "languages";
          assert kwargs[i + 1] == tail[i];
        }
      }
    }
  }

  function UnexpectedKeyword(key: string): Error
  {
    TypeError("got an unexpected keyword argument '" + key + "'")
  }

  /** The rejection of a top node that is not an address map, naming its class. */
  function NotAnAddrmap(k: Kind): Error
  {
    TypeError("'node' argument expects type AddrmapNode. Got '" + ClassName(k) + "'")
  }

  /** The constructor's option handling: any keyword other than `languages` is
      rejected, naming the first such keyword in call order; otherwise the dialect is
      the one `languages` names, Verilog by default. A `languages` value outside
      the three known names makes the source fail with an attribute error; callers
      must not pass one. */
  function Options(kwargs: seq<(string, string)>): (r: Result<Language>)
    requires NoStrayKeys(kwargs) ==> LanguageOption(kwargs) in LanguageNames
    ensures r.Err? <==> exists i :: 0 <= i < |kwargs| && kwargs[i].0 != "languages"
    ensures r.Err? ==>
      exists i :: 0 <= i < |kwargs| && kwargs[i].0 != "languages" &&
        (forall j :: 0 <= j < i ==> kwargs[j].0 == "languages") &&
        r.error == UnexpectedKeyword(kwargs[i].0)
    ensures r.Ok? ==> r.value == LanguageNamed(LanguageOption(kwargs))
  {
    StrayKeysFirst(kwargs);
    var stray := StrayKeys(kwargs);
    if stray != [] then Err(UnexpectedKeyword(stray[0]))
    else Ok(LanguageNamed(LanguageOption(kwargs)))
  }

  /** The character that opens every preprocessor directive. */
  function DefinePrefix(lang: Language): string
  {
    if lang == Verilog then "`" else "#"
  }

  /** The prefix of every hexadecimal literal. */
  function HexPrefix(lang: Language): string
  {
    if lang == Verilog then "'h" else "0x"
  }

  function DefineToken(lang: Language): string { DefinePrefix(lang) + "define " }

  function IfndefToken(lang: Language): string { DefinePrefix(lang) + "ifndef " }

  function IfdefToken(lang: Language): string { DefinePrefix(lang) + "ifdef " }

  function EndifToken(lang: Language): string { DefinePrefix(lang) + "endif" }

  /** The array index as it is written inside a register macro's value. */
  function IndexToken(lang: Language): string
  {
    if lang == Verilog then "X``" else "X"
  }

  // ---------------------------------------------------------------------------
  // File name and include guard

  /** The file name written: the stem with the dialect's extension. */
  function OutputFileName(lang: Language, stem: string): string
  {
    stem + (if lang == Verilog then ".svh" else ".h")
  }

  /** The include-guard token: the file name upper-cased, every `.` replaced by `_`. */
  function GuardToken(lang: Language, stem: string): string
  {
    ReplaceChar(Upper(OutputFileName(lang, stem)), '.', '_')
  }

  /** The two opening guard lines. The space that ends each token and the one
      before `__` are both kept, as the source writes them. */
  function GuardLines(lang: Language, tag: string): seq<string>
  {
    [IfndefToken(lang) + " __" + tag + "__", DefineToken(lang) + " __" + tag + "__\n"]
  }

  /** The closing line. */
  function EndLine(lang: Language): string
  {
    "\n" + EndifToken(lang)
  }

  /** The guard token is the stem, upper-cased with dots replaced, followed by the
      extension's own token; it holds no dot and no lower-case letter. */
  lemma GuardTokenShape(lang: Language, stem: string)
    ensures GuardToken(lang, stem) ==
      ReplaceChar(Upper(stem), '.', '_') + (if lang == Verilog then "_SVH" else "_H")
    ensures forall i :: 0 <= i < |GuardToken(lang, stem)| ==>
      GuardToken(lang, stem)[i] != '.' && !IsLowerAscii(GuardToken(lang, stem)[i])
  {
    GuardTokenSplits(lang, stem);
    GuardTokenCharacters(lang, stem);
  }

  lemma ExtensionToken(lang: Language)
    ensures ReplaceChar(Upper(if lang == Verilog then ".svh" else ".h"), '.', '_') ==
      (if lang == Verilog then "_SVH" else "_H")
  {
    if lang == Verilog {
      assert Upper(".svh") == ".SVH";
      assert ReplaceChar(".SVH", '.', '_') == "_SVH";
    } else {
      assert Upper(".h") == ".H";
      assert ReplaceChar(".H", '.', '_') == "_H";
    }
  }

  lemma GuardTokenSplits(lang: Language, stem: string)
    ensures GuardToken(lang, stem) ==
      ReplaceChar(Upper(stem), '.', '_') + (if lang == Verilog then "_SVH" else "_H")
  {
    var ext := if lang == Verilog then ".svh" else ".h";
    UpperAppend(stem, ext);
    ReplaceCharAppend(Upper(stem), Upper(ext), '.', '_');
    ExtensionToken(lang);
  }

  lemma GuardTokenCharacters(lang: Language, stem: string)
    ensures forall i :: 0 <= i < |GuardToken(lang, stem)| ==>
      GuardToken(lang, stem)[i] != '.' && !IsLowerAscii(GuardToken(lang, stem)[i])
  {
    var g := GuardToken(lang, stem);
    var u := Upper(OutputFileName(lang, stem));
    forall i | 0 <= i < |g| ensures g[i] != '.' && !IsLowerAscii(g[i]) {
      assert g[i] == (if u[i] == '.' then '_' else u[i]);
    }
  }

  // ---------------------------------------------------------------------------
  // Address blocks

  function BaseMacroName(block: Node): string
  {
    Upper(block.instName) + "_BASE_ADDR"
  }

  /** The symbolic base address of a block, always defined as 0. */
  function BaseContent(block: Node): string
  {
    BaseMacroName(block) + " 0"
  }

  /** How registers refer to their block's base: a macro use, so Verilog prefixes
      it with a backquote. */
  function BaseAddressName(lang: Language, block: Node): string
  {
    (if lang == Verilog then "`" else "") + BaseMacroName(block)
  }

  // ---------------------------------------------------------------------------
  // Registers

  function RegisterComment(reg: Node): string
  {
    "//register: " + reg.instName
  }

  /** One summand after the base in an address expression: a literal offset, or a
      stride multiplied by the array index. */
  datatype Term = Offset(value: nat) | Scaled(value: nat)

  /** The three-way choice of address expression. An arrayed parent takes
      precedence and contributes its own offset and stride, followed by the
      register's offset within one element; otherwise an arrayed register gives its
      offset and stride; otherwise the register's absolute address is used. */
  function AddressTerms(parent: Node, reg: Node): seq<Term>
  {
    if parent.isArray then [Offset(parent.rawAddressOffset), Scaled(parent.arrayStride), Offset(reg.addressOffset)]
    else if reg.isArray then [Offset(reg.rawAddressOffset), Scaled(reg.arrayStride)]
    else [Offset(reg.absoluteAddress)]
  }

  function RenderTerm(lang: Language, t: Term): string
  {
    " + " + (if t.Scaled? then IndexToken(lang) + "*" else "") + HexPrefix(lang) + Hex(t.value)
  }

  function RenderTerms(lang: Language, ts: seq<Term>): string
  {
    if ts == [] then "" else RenderTerm(lang, ts[0]) + RenderTerms(lang, ts[1..])
  }

  /** The macro name; it takes the parameter `X` when the parent or the register is arrayed. */
  function RegisterName(parent: Node, reg: Node): string
  {
    Upper(parent.instName) + "_" + Upper(reg.instName) + (if parent.isArray || reg.isArray then "(X)" else "")
  }

  /** The text after the define token for a register. */
  function RegisterMacro(lang: Language, base: string, parent: Node, reg: Node): string
  {
    RegisterName(parent, reg) + " " + base + RenderTerms(lang, AddressTerms(parent, reg))
  }

  // ---------------------------------------------------------------------------
  // Reading an address expression back

  predicate StartsWith(s: string, p: string)
  {
    |p| <= |s| && s[..|p|] == p
  }

  /** The longest prefix of `s` made of lower-case hexadecimal digits. */
  function HexRun(s: string): (d: string)
    ensures |d| <= |s| && d == s[..|d|]
    ensures forall i :: 0 <= i < |d| ==> IsLowerHexDigit(d[i])
    ensures |d| < |s| ==> !IsLowerHexDigit(s[|d|])
  {
    if s == [] || !IsLowerHexDigit(s[0]) then [] else [s[0]] + HexRun(s[1..])
  }

  /** Reads one summand from the front of `s`, giving it and the text after it. */
  function ParseTerm(lang: Language, s: string): (r: Option<(Term, string)>)
    ensures r.Some? ==> |r.value.1| < |s|
  {
    if !StartsWith(s, " + ") then None else ParseIndexed(lang, s[3..])
  }

  /** A summand after its " + ": the index factor, if present, then the value. */
  function ParseIndexed(lang: Language, a: string): (r: Option<(Term, string)>)
    ensures r.Some? ==> |r.value.1| < |a|
  {
    var scaled := StartsWith(a, IndexToken(lang) + "*");
    ParseValue(scaled, lang, if scaled then a[|IndexToken(lang)| + 1..] else a)
  }

  /** The value of a summand: the hexadecimal prefix and a non-empty run of digits. */
  function ParseValue(scaled: bool, lang: Language, b: string): (r: Option<(Term, string)>)
    ensures r.Some? ==> |r.value.1| < |b|
  {
    if !StartsWith(b, HexPrefix(lang)) then None
    else
      var c := b[|HexPrefix(lang)|..];
      var digits := HexRun(c);
      if digits == [] then None
      else
        var value := ParseNumeral(digits, 16);
        Some((if scaled then Scaled(value) else Offset(value), c[|digits|..]))
  }

  /** Reads the summands of an address expression, as written after the base. */
  function ParseTerms(lang: Language, s: string): Option<seq<Term>>
    decreases |s|
  {
    if s == [] then Some([])
    else
      match ParseTerm(lang, s)
      case None => None
      case Some((t, rest)) =>
        match ParseTerms(lang, rest)
        case None => None
        case Some(ts) => Some([t] + ts)
  }

  lemma {:induction false} HexRunStops(d: string, rest: string)
    requires forall i :: 0 <= i < |d| ==> IsLowerHexDigit(d[i])
    requires rest == [] || !IsLowerHexDigit(rest[0])
    ensures HexRun(d + rest) == d
  {
    if d != [] {
      assert (d + rest)[1..] == d[1..] + rest;
      HexRunStops(d[1..], rest);
    } else {
      assert d + rest == rest;
    }
  }

  lemma ParseValueOf(scaled: bool, lang: Language, digits: string, rest: string)
    requires |digits| >= 1 && forall i :: 0 <= i < |digits| ==> IsLowerHexDigit(digits[i])
    requires rest == [] || rest[0] == ' '
    ensures var v := ParseNumeral(digits, 16);
      ParseValue(scaled, lang, HexPrefix(lang) + (digits + rest)) == Some((if scaled then Scaled(v) else Offset(v), rest))
  {
    SplitAppend(HexPrefix(lang), digits + rest);
    HexRunStops(digits, rest);
    SplitAppend(digits, rest);
  }

  lemma ParseIndexedOf(scaled: bool, lang: Language, b: string)
    requires StartsWith(b, HexPrefix(lang))
    ensures ParseIndexed(lang, (if scaled then IndexToken(lang) + "*" else "") + b) == ParseValue(scaled, lang, b)
  {
    var sp := IndexToken(lang) + "*";
    if scaled {
      SplitAppend(sp, b);
    } else {
      assert "" + b == b;
      assert b[0] == HexPrefix(lang)[0] != 'X' == sp[0];
      assert !StartsWith(b, sp) by {
        if |sp| <= |b| {
          assert b[..|sp|][0] == b[0];
        }
      }
    }
  }

  /** Reading one summand, written with the given digits, in front of further text
      that starts with a space. */
  lemma ParseTermOf(lang: Language, scaled: bool, digits: string, rest: string)
    requires |digits| >= 1 && forall i :: 0 <= i < |digits| ==> IsLowerHexDigit(digits[i])
    requires rest == [] || rest[0] == ' '
    ensures var v := ParseNumeral(digits, 16);
      ParseTerm(lang, " + " + (if scaled then IndexToken(lang) + "*" else "") + HexPrefix(lang) + digits + rest)
        == Some((if scaled then Scaled(v) else Offset(v), rest))
  {
    var plus, hp := " + ", HexPrefix(lang);
    var opt := if scaled then IndexToken(lang) + "*" else "";
    var b := hp + (digits + rest);
    AppendAssociative(plus + opt + hp, digits, rest);
    AppendAssociative(plus + opt, hp, digits + rest);
    AppendAssociative(plus, opt, b);
    SplitAppend(plus, opt + b);
    SplitAppend(hp, digits + rest);
    ParseIndexedOf(scaled, lang, b);
    ParseValueOf(scaled, lang, digits, rest);
  }

  /** Reading one rendered summand in front of further text that starts with a space. */
  lemma ParseTermStep(lang: Language, t: Term, rest: string)
    requires rest == [] || rest[0] == ' '
    ensures ParseTerm(lang, RenderTerm(lang, t) + rest) == Some((t, rest))
  {
    ParseTermOf(lang, t.Scaled?, Hex(t.value), rest);
    NumeralRoundTrip(t.value, 16);
  }

  /** A rendered expression is empty or starts with the space of its first " + ". */
  lemma RenderTermsStart(lang: Language, ts: seq<Term>)
    ensures var s := RenderTerms(lang, ts); s == [] || s[0] == ' '
  {
    if ts != [] {
      assert RenderTerms(lang, ts) == RenderTerm(lang, ts[0]) + RenderTerms(lang, ts[1..]);
    }
  }

  lemma ParseTermsCons(lang: Language, s: string, t: Term, rest: string, us: seq<Term>)
    requires s != [] && ParseTerm(lang, s) == Some((t, rest)) && ParseTerms(lang, rest) == Some(us)
    ensures ParseTerms(lang, s) == Some([t] + us)
  {
  }

  /** Every rendered address expression reads back as the summands it was written from. */
  lemma {:induction false} TermsRoundTrip(lang: Language, ts: seq<Term>)
    ensures ParseTerms(lang, RenderTerms(lang, ts)) == Some(ts)
  {
    if ts != [] {
      var rest := RenderTerms(lang, ts[1..]);
      RenderTermsStart(lang, ts[1..]);
      ParseTermStep(lang, ts[0], rest);
      var s := RenderTerm(lang, ts[0]) + rest;
      assert RenderTerms(lang, ts) == s;
      TermsRoundTrip(lang, ts[1..]);
      ParseTermsCons(lang, s, ts[0], rest, ts[1..]);
      assert [ts[0]] + ts[1..] == ts;
    }
  }

  /** A register macro is its name, the base it was given and an address expression
      that reads back as the summands of the three-way choice; the name takes the
      parameter `X` exactly when the expression uses the index. */
  lemma RegisterMacroDecodes(lang: Language, base: string, parent: Node, reg: Node)
    ensures var head := RegisterName(parent, reg) + " " + base;
      var m := RegisterMacro(lang, base, parent, reg);
      StartsWith(m, head) && ParseTerms(lang, m[|head|..]) == Some(AddressTerms(parent, reg))
    ensures (exists i :: 0 <= i < |AddressTerms(parent, reg)| && AddressTerms(parent, reg)[i].Scaled?) <==>
      (parent.isArray || reg.isArray)
  {
    var head := RegisterName(parent, reg) + " " + base;
    var m := RegisterMacro(lang, base, parent, reg);
    assert m[|head|..] == RenderTerms(lang, AddressTerms(parent, reg));
    TermsRoundTrip(lang, AddressTerms(parent, reg));
    if parent.isArray {
      assert AddressTerms(parent, reg)[1].Scaled?;
    } else if reg.isArray {
      assert AddressTerms(parent, reg)[1].Scaled?;
    }
  }

  // ---------------------------------------------------------------------------
  // Fields

  function FieldMacroName(reg: Node, field: Node, suffix: string): string
  {
    Upper(reg.instName) + "_REG_" + Upper(field.instName) + "_" + suffix
  }

  /** The field's mask as the source computes it: `int('1' * width, 2) << low`. */
  function MaskValue(low: nat, width: nat): nat
  {
    ParseNumeral(Ones(width), 2) * Pow2(low)
  }

  function FieldOffsetContent(reg: Node, field: Node): string
  {
    FieldMacroName(reg, field, "OFFSET") + " " + Decimal(field.low)
  }

  function FieldMaskContent(lang: Language, reg: Node, field: Node): string
  {
    FieldMacroName(reg, field, "MASK") + " " + HexPrefix(lang) + Hex(MaskValue(field.low, field.width))
  }

  /** The mask is (2^width - 1) * 2^low. */
  lemma MaskValueFormula(low: nat, width: nat)
    ensures MaskValue(low, width) == (Pow2(width) - 1) * Pow2(low)
  {
    OnesValue(width);
  }

  lemma BitOfDouble(m: nat, i: nat)
    ensures Bit(2 * m, i) == (if i == 0 then 0 else Bit(m, i - 1))
    ensures Bit(2 * m + 1, i) == (if i == 0 then 1 else Bit(m, i - 1))
  {
    if i > 0 {
      assert (2 * m) / 2 == m;
      assert (2 * m + 1) / 2 == m;
    }
  }

  lemma {:induction false} OnesTimesPow2Bits(low: nat, width: nat, i: nat)
    ensures Bit((Pow2(width) - 1) * Pow2(low), i) == (if low <= i < low + width then 1 else 0)
    decreases low, width
  {
    var ones := Pow2(width) - 1;
    if low > 0 {
      var m := ones * Pow2(low - 1);
      assert ones * Pow2(low) == 2 * m by {
        TimesDouble(ones, Pow2(low - 1));
      }
      BitOfDouble(m, i);
      if i > 0 {
        OnesTimesPow2Bits(low - 1, width, i - 1);
      }
    } else if width == 0 {
      assert ones * Pow2(low) == 0;
      BitOfZero(i);
    } else {
      var m := Pow2(width - 1) - 1;
      OnesTimesPow2Bits(0, width - 1, if i > 0 then i - 1 else 0);
      assert ones * Pow2(low) == 2 * m + 1;
      assert m * Pow2(0) == m;
      BitOfDouble(m, i);
    }
  }

  lemma TimesDouble(p: nat, q: nat)
    ensures p * (2 * q) == 2 * (p * q)
  {
  }

  /** Bit `i` of the mask is set exactly when `low <= i < low + width`. */
  lemma MaskBits(low: nat, width: nat, i: nat)
    ensures Bit(MaskValue(low, width), i) == (if low <= i < low + width then 1 else 0)
  {
    MaskValueFormula(low, width);
    OnesTimesPow2Bits(low, width, i);
  }

  /** The offset macro's value reads back as `low` in decimal. */
  lemma FieldOffsetDecodes(reg: Node, field: Node)
    ensures var head := FieldMacroName(reg, field, "OFFSET") + " ";
      var m := FieldOffsetContent(reg, field);
      StartsWith(m, head) && ParseNumeral(m[|head|..], 10) == field.low
  {
    var head := FieldMacroName(reg, field, "OFFSET") + " ";
    assert FieldOffsetContent(reg, field)[|head|..] == Decimal(field.low);
    NumeralRoundTrip(field.low, 10);
  }

  /** The mask macro's value is the hexadecimal prefix followed by lower-case digits,
      without a leading zero, that read back as (2^width - 1) * 2^low. */
  lemma FieldMaskDecodes(lang: Language, reg: Node, field: Node)
    requires field.width >= 1
    ensures var head := FieldMacroName(reg, field, "MASK") + " " + HexPrefix(lang);
      var m := FieldMaskContent(lang, reg, field);
      && StartsWith(m, head)
      && |m| > |head|
      && (forall i :: |head| <= i < |m| ==> IsLowerHexDigit(m[i]))
      && m[|head|] != '0'
      && ParseNumeral(m[|head|..], 16) == (Pow2(field.width) - 1) * Pow2(field.low)
  {
    var head := FieldMacroName(reg, field, "MASK") + " " + HexPrefix(lang);
    var mask := MaskValue(field.low, field.width);
    var digits := Hex(mask);
    var m := FieldMaskContent(lang, reg, field);
    assert m == head + digits;
    assert m[|head|..] == digits;
    NumeralRoundTrip(mask, 16);
    MaskValueFormula(field.low, field.width);
    assert mask != 0 by {
      MaskBits(field.low, field.width, field.low);
      if mask == 0 {
        BitOfZero(field.low);
      }
    }
    forall i | |head| <= i < |m| ensures IsLowerHexDigit(m[i]) {
      assert m[i] == digits[i - |head|];
    }
  }
}
