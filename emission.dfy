/** The lines the generator emits for a tree, as functions of the tree: what each
    `add_*` method of the exporter appends, and what one `export` call appends in
    all. The class in module Exporter is proved to append exactly these. */
module Emission {
  import opened Text
  import opened Rdl
  import opened Formats

  // ---------------------------------------------------------------------------
  // The emitted lines

  /** `add_field`: the offset macro, then the mask macro. */
  function FieldMacros(lang: Language, reg: Node, field: Node): seq<string>
  {
    [DefineToken(lang) + FieldOffsetContent(reg, field), DefineToken(lang) + FieldMaskContent(lang, reg, field)]
  }

  /** The macros of each field of `fs`, one piece per field. */
  function PerField(lang: Language, reg: Node, fs: seq<Node>): (r: seq<seq<string>>)
    ensures |r| == |fs|
    ensures forall k :: 0 <= k < |fs| ==> r[k] == FieldMacros(lang, reg, fs[k])
  {
    seq(|fs|, k requires 0 <= k < |fs| => FieldMacros(lang, reg, fs[k]))
  }

  /** The loop over a register's fields. */
  function FieldLines(lang: Language, reg: Node, fs: seq<Node>): seq<string>
  {
    Concat(PerField(lang, reg, fs))
  }

  lemma FieldLinesSnoc(lang: Language, reg: Node, fs: seq<Node>)
    requires fs != []
    ensures FieldLines(lang, reg, fs) == FieldLines(lang, reg, fs[..|fs| - 1]) + FieldMacros(lang, reg, fs[|fs| - 1])
  {
    var init := fs[..|fs| - 1];
    assert PerField(lang, reg, fs) == PerField(lang, reg, init) + [FieldMacros(lang, reg, fs[|fs| - 1])];
    ConcatSnoc(PerField(lang, reg, init), FieldMacros(lang, reg, fs[|fs| - 1]));
  }

  /** `add_register`: the comment, the register macro, then the macros of its fields. */
  function RegisterLines(lang: Language, base: string, parent: Node, reg: Node): seq<string>
  {
    [RegisterComment(reg), DefineToken(lang) + RegisterMacro(lang, base, parent, reg)]
      + FieldLines(lang, reg, Fields(reg))
  }

  /** The loop of `add_registerFile` over `cs`, the children of `parent`, one child
      after another. */
  function ChildrenLines(lang: Language, base: string, parent: Node, cs: seq<Node>): seq<string>
    decreases cs, 0
  {
    if cs == [] then []
    else ChildrenLines(lang, base, parent, cs[..|cs| - 1]) + ChildLines(lang, base, parent, cs[|cs| - 1])
  }

  /** One child of `parent`: a register is emitted against `parent`, an address map or
      register file is flattened into the same base, and every other child is skipped. */
  function ChildLines(lang: Language, base: string, parent: Node, c: Node): seq<string>
    decreases c.children, 1
  {
    if c.kind.Reg? then RegisterLines(lang, base, parent, c)
    else if c.kind.Addrmap? || c.kind.Regfile? then ChildrenLines(lang, base, c, c.children)
    else []
  }

  /** One more child of `parent` appends that child's lines. */
  lemma ChildrenLinesStep(lang: Language, base: string, parent: Node, cs: seq<Node>, i: nat)
    requires i < |cs|
    ensures ChildrenLines(lang, base, parent, cs[..i + 1]) ==
      ChildrenLines(lang, base, parent, cs[..i]) + ChildLines(lang, base, parent, cs[i])
  {
    assert cs[..i + 1][..i] == cs[..i];
    assert cs[..i + 1][i] == cs[i];
  }

  /** One more field appends that field's two macros. */
  lemma FieldLinesStep(lang: Language, reg: Node, fs: seq<Node>, i: nat)
    requires i < |fs|
    ensures FieldLines(lang, reg, fs[..i + 1]) == FieldLines(lang, reg, fs[..i]) + FieldMacros(lang, reg, fs[i])
  {
    FieldLinesSnoc(lang, reg, fs[..i + 1]);
    assert fs[..i + 1][..i] == fs[..i];
  }

  /** `add_addressBlock`: the base-address macro, then the block's children against
      the block's own base. */
  function BlockLines(lang: Language, block: Node): seq<string>
  {
    [DefineToken(lang) + BaseContent(block)]
      + ChildrenLines(lang, BaseAddressName(lang, block), block, block.children)
  }

  /** The exploded layout: one address block per addressable unrolled child. */
  function BlocksLines(lang: Language, us: seq<Node>): seq<string>
  {
    if us == [] then []
    else
      BlocksLines(lang, us[..|us| - 1]) +
        (if IsAddressable(us[|us| - 1]) then BlockLines(lang, us[|us| - 1]) else [])
  }

  /** The base-address reference left behind by the exploded layout: that of the last
      addressable block, or `before` when there is none. */
  function BaseAfterBlocks(lang: Language, before: string, us: seq<Node>): string
  {
    if us == [] then before
    else if IsAddressable(us[|us| - 1]) then BaseAddressName(lang, us[|us| - 1])
    else BaseAfterBlocks(lang, before, us[..|us| - 1])
  }

  /** One more unrolled child appends its block when it is addressable, and then
      supplies the base-address reference left behind. */
  lemma BlocksStep(lang: Language, before: string, us: seq<Node>, i: nat)
    requires i < |us|
    ensures BlocksLines(lang, us[..i + 1]) ==
      BlocksLines(lang, us[..i]) + (if IsAddressable(us[i]) then BlockLines(lang, us[i]) else [])
    ensures BaseAfterBlocks(lang, before, us[..i + 1]) ==
      (if IsAddressable(us[i]) then BaseAddressName(lang, us[i]) else BaseAfterBlocks(lang, before, us[..i]))
  {
    assert us[..i + 1][..i] == us[..i];
    assert us[..i + 1][i] == us[i];
  }

  /** A child that may become an address block of its own. */
  predicate BlockCapable(c: Node)
  {
    (c.kind.Addrmap? || c.kind.Mem?) && !c.isArray
  }

  /** The layout decision: explode exactly when every addressable child is block-capable
      and at least one child is. */
  predicate ExplodePolicy(node: Node)
  {
    && (forall c :: c in node.children && IsAddressable(c) ==> BlockCapable(c))
    && (exists c :: c in node.children && BlockCapable(c))
  }

  /** What `export` emits between the guard and the closing line. */
  function TopLines(lang: Language, node: Node): seq<string>
  {
    if ExplodePolicy(node) then BlocksLines(lang, node.unrolled) else BlockLines(lang, node)
  }

  /** Everything one successful `export` call appends, for an address-map node. */
  function ExportLines(lang: Language, stem: string, node: Node): seq<string>
  {
    GuardLines(lang, GuardToken(lang, stem)) + TopLines(lang, node) + [EndLine(lang)]
  }

  // ---------------------------------------------------------------------------
  // Flattening: the registers beneath a block, independently of how they are printed

  /** The (parent, register) pairs that `add_register` is called with beneath the
      children `cs` of `parent`, in traversal order. */
  function RegistersUnder(parent: Node, cs: seq<Node>): seq<(Node, Node)>
    decreases cs
  {
    if cs == [] then []
    else
      var c := cs[|cs| - 1];
      RegistersUnder(parent, cs[..|cs| - 1]) +
        (if c.kind.Reg? then [(parent, c)]
         else if c.kind.Addrmap? || c.kind.Regfile? then RegistersUnder(c, c.children)
         else [])
  }

  /** Every register of `ps` printed against the one base `base`, one after another. */
  function RegistersLines(lang: Language, base: string, ps: seq<(Node, Node)>): seq<string>
  {
    if ps == [] then []
    else RegistersLines(lang, base, ps[..|ps| - 1]) + RegisterLines(lang, base, ps[|ps| - 1].0, ps[|ps| - 1].1)
  }

  lemma {:induction false} RegistersLinesAppend(lang: Language, base: string, a: seq<(Node, Node)>, b: seq<(Node, Node)>)
    ensures RegistersLines(lang, base, a + b) == RegistersLines(lang, base, a) + RegistersLines(lang, base, b)
    decreases |b|
  {
    if b == [] {
      assert a + b == a;
    } else {
      var last := b[|b| - 1];
      assert (a + b)[..|a + b| - 1] == a + b[..|b| - 1];
      assert (a + b)[|a + b| - 1] == last;
      RegistersLinesAppend(lang, base, a, b[..|b| - 1]);
      AppendAssociative(RegistersLines(lang, base, a), RegistersLines(lang, base, b[..|b| - 1]),
        RegisterLines(lang, base, last.0, last.1));
    }
  }

  /** Flattening: beneath a block, nested address maps and register files add no line
      of their own and do not change the base; the lines are exactly those of the
      registers beneath, each printed against the same base, in traversal order. */
  lemma {:induction false} Flatten(lang: Language, base: string, parent: Node, cs: seq<Node>)
    ensures ChildrenLines(lang, base, parent, cs) == RegistersLines(lang, base, RegistersUnder(parent, cs))
    decreases cs
  {
    if cs != [] {
      var c := cs[|cs| - 1];
      var init := cs[..|cs| - 1];
      Flatten(lang, base, parent, init);
      var tail := if c.kind.Reg? then [(parent, c)]
        else if c.kind.Addrmap? || c.kind.Regfile? then RegistersUnder(c, c.children)
        else [];
      RegistersLinesAppend(lang, base, RegistersUnder(parent, init), tail);
      if c.kind.Reg? {
        assert RegistersLines(lang, base, tail) == RegisterLines(lang, base, parent, c) by {
          assert tail[..0] == [];
          assert [] + RegisterLines(lang, base, parent, c) == RegisterLines(lang, base, parent, c);
        }
      } else if c.kind.Addrmap? || c.kind.Regfile? {
        Flatten(lang, base, c, c.children);
      }
    }
  }

  // ---------------------------------------------------------------------------
  // The shape of the emitted lines

  /** Exactly two macros per field, in field order: the offset, then the mask. */
  lemma FieldLinesShape(lang: Language, reg: Node, fs: seq<Node>)
    ensures |FieldLines(lang, reg, fs)| == 2 * |fs|
    ensures forall k :: 0 <= k < |fs| ==>
      && FieldLines(lang, reg, fs)[2 * k] == DefineToken(lang) + FieldOffsetContent(reg, fs[k])
      && FieldLines(lang, reg, fs)[2 * k + 1] == DefineToken(lang) + FieldMaskContent(lang, reg, fs[k])
  {
    ConcatPairs(PerField(lang, reg, fs));
  }

  /** Per register: one comment naming it, one register macro, then two macros per
      field in field order. */
  lemma RegisterLinesShape(lang: Language, base: string, parent: Node, reg: Node)
    ensures var r := RegisterLines(lang, base, parent, reg);
      var fs := Fields(reg);
      && |r| == 2 + 2 * |fs|
      && r[0] == "//register: " + reg.instName
      && r[1] == DefineToken(lang) + RegisterMacro(lang, base, parent, reg)
      && (forall k :: 0 <= k < |fs| ==>
            && r[2 + 2 * k] == DefineToken(lang) + FieldOffsetContent(reg, fs[k])
            && r[3 + 2 * k] == DefineToken(lang) + FieldMaskContent(lang, reg, fs[k]))
  {
    var fs := Fields(reg);
    FieldLinesShape(lang, reg, fs);
    var r := RegisterLines(lang, base, parent, reg);
    forall k | 0 <= k < |fs|
      ensures r[2 + 2 * k] == DefineToken(lang) + FieldOffsetContent(reg, fs[k])
      ensures r[3 + 2 * k] == DefineToken(lang) + FieldMaskContent(lang, reg, fs[k])
    {
      assert r[2 + 2 * k] == FieldLines(lang, reg, fs)[2 * k];
      assert r[3 + 2 * k] == FieldLines(lang, reg, fs)[2 * k + 1];
    }
  }

  /** A line written through `add_content`. */
  predicate IsMacroLine(lang: Language, line: string)
  {
    StartsWith(line, DefineToken(lang))
  }

  /** A line written directly by `add_register`. */
  predicate IsRegisterComment(line: string)
  {
    StartsWith(line, "//register: ")
  }

  /** Every line is a macro line or a register comment. */
  predicate MacrosAndComments(lang: Language, lines: seq<string>)
  {
    forall i :: 0 <= i < |lines| ==> IsMacroLine(lang, lines[i]) || IsRegisterComment(lines[i])
  }

  lemma MacrosAndCommentsAppend(lang: Language, a: seq<string>, b: seq<string>)
    requires MacrosAndComments(lang, a) && MacrosAndComments(lang, b)
    ensures MacrosAndComments(lang, a + b)
  {
    forall i | 0 <= i < |a + b| ensures IsMacroLine(lang, (a + b)[i]) || IsRegisterComment((a + b)[i]) {
      if i >= |a| {
        assert (a + b)[i] == b[i - |a|];
      }
    }
  }

  lemma {:induction false} FieldLinesKinds(lang: Language, reg: Node, fs: seq<Node>)
    ensures MacrosAndComments(lang, FieldLines(lang, reg, fs))
  {
    if fs != [] {
      FieldLinesSnoc(lang, reg, fs);
      FieldLinesKinds(lang, reg, fs[..|fs| - 1]);
      MacrosAndCommentsAppend(lang, FieldLines(lang, reg, fs[..|fs| - 1]), FieldMacros(lang, reg, fs[|fs| - 1]));
    }
  }

  lemma RegisterLinesKinds(lang: Language, base: string, parent: Node, reg: Node)
    ensures MacrosAndComments(lang, RegisterLines(lang, base, parent, reg))
  {
    var head := [RegisterComment(reg), DefineToken(lang) + RegisterMacro(lang, base, parent, reg)];
    assert IsRegisterComment(head[0]) && IsMacroLine(lang, head[1]);
    FieldLinesKinds(lang, reg, Fields(reg));
    MacrosAndCommentsAppend(lang, head, FieldLines(lang, reg, Fields(reg)));
  }

  lemma {:induction false} RegistersLinesKinds(lang: Language, base: string, ps: seq<(Node, Node)>)
    ensures MacrosAndComments(lang, RegistersLines(lang, base, ps))
  {
    if ps != [] {
      RegistersLinesKinds(lang, base, ps[..|ps| - 1]);
      RegisterLinesKinds(lang, base, ps[|ps| - 1].0, ps[|ps| - 1].1);
      MacrosAndCommentsAppend(lang, RegistersLines(lang, base, ps[..|ps| - 1]),
        RegisterLines(lang, base, ps[|ps| - 1].0, ps[|ps| - 1].1));
    }
  }

  lemma ChildrenLinesKinds(lang: Language, base: string, parent: Node, cs: seq<Node>)
    ensures MacrosAndComments(lang, ChildrenLines(lang, base, parent, cs))
  {
    Flatten(lang, base, parent, cs);
    RegistersLinesKinds(lang, base, RegistersUnder(parent, cs));
  }

  /** An address block opens with its base-address macro, and every other line it
      holds is a macro line or a register comment. */
  lemma BlockLinesKinds(lang: Language, block: Node)
    ensures BlockLines(lang, block)[0] == DefineToken(lang) + Upper(block.instName) + "_BASE_ADDR 0"
    ensures MacrosAndComments(lang, BlockLines(lang, block))
  {
    var base := BaseAddressName(lang, block);
    var name := Upper(block.instName);
    AppendAssociative(name, "_BASE_ADDR", " 0");
    assert "_BASE_ADDR" + " 0" == "_BASE_ADDR 0";
    AppendAssociative(DefineToken(lang), name, "_BASE_ADDR 0");
    ChildrenLinesKinds(lang, base, block, block.children);
    var head := [DefineToken(lang) + BaseContent(block)];
    assert IsMacroLine(lang, head[0]);
    MacrosAndCommentsAppend(lang, head, ChildrenLines(lang, base, block, block.children));
  }

  lemma {:induction false} BlocksLinesKinds(lang: Language, us: seq<Node>)
    ensures MacrosAndComments(lang, BlocksLines(lang, us))
  {
    if us != [] {
      var u := us[|us| - 1];
      BlocksLinesKinds(lang, us[..|us| - 1]);
      BlockLinesKinds(lang, u);
      MacrosAndCommentsAppend(lang, BlocksLines(lang, us[..|us| - 1]),
        if IsAddressable(u) then BlockLines(lang, u) else []);
    }
  }

  /** The whole output of one `export`: the two guard lines, then only macro lines and
      register comments, then the closing `endif` line. */
  lemma ExportLinesShape(lang: Language, stem: string, node: Node)
    ensures var e := ExportLines(lang, stem, node);
      var tag := GuardToken(lang, stem);
      && |e| >= 3
      && e[0] == IfndefToken(lang) + " __" + tag + "__"
      && e[1] == DefineToken(lang) + " __" + tag + "__\n"
      && e[|e| - 1] == "\n" + EndifToken(lang)
      && forall i :: 2 <= i < |e| - 1 ==> IsMacroLine(lang, e[i]) || IsRegisterComment(e[i])
  {
    var e := ExportLines(lang, stem, node);
    var top := TopLines(lang, node);
    if ExplodePolicy(node) {
      BlocksLinesKinds(lang, node.unrolled);
    } else {
      BlockLinesKinds(lang, node);
    }
    forall i | 2 <= i < |e| - 1 ensures IsMacroLine(lang, e[i]) || IsRegisterComment(e[i]) {
      assert e[i] == top[i - 2];
    }
  }

  // ---------------------------------------------------------------------------
  // Counting

  /** The number of lines a list of registers produces: two per register, two per field. */
  function LineCount(ps: seq<(Node, Node)>): nat
  {
    if ps == [] then 0 else LineCount(ps[..|ps| - 1]) + 2 + 2 * |Fields(ps[|ps| - 1].1)|
  }

  lemma {:induction false} RegistersLinesCount(lang: Language, base: string, ps: seq<(Node, Node)>)
    ensures |RegistersLines(lang, base, ps)| == LineCount(ps)
  {
    if ps != [] {
      RegistersLinesCount(lang, base, ps[..|ps| - 1]);
      RegisterLinesShape(lang, base, ps[|ps| - 1].0, ps[|ps| - 1].1);
    }
  }

  /** One block: one base-address line, and two lines per register and per field beneath it. */
  lemma BlockLinesCount(lang: Language, block: Node)
    ensures |BlockLines(lang, block)| == 1 + LineCount(RegistersUnder(block, block.children))
  {
    Flatten(lang, BaseAddressName(lang, block), block, block.children);
    RegistersLinesCount(lang, BaseAddressName(lang, block), RegistersUnder(block, block.children));
  }

  // ---------------------------------------------------------------------------
  // The C and C++ dialects

  lemma {:induction false} FieldLinesCAndCpp(reg: Node, fs: seq<Node>)
    ensures FieldLines(C, reg, fs) == FieldLines(Cpp, reg, fs)
  {
    if fs != [] {
      FieldLinesSnoc(C, reg, fs);
      FieldLinesSnoc(Cpp, reg, fs);
      FieldLinesCAndCpp(reg, fs[..|fs| - 1]);
    }
  }

  lemma {:induction false} RenderTermsCAndCpp(ts: seq<Term>)
    ensures RenderTerms(C, ts) == RenderTerms(Cpp, ts)
  {
    if ts != [] {
      RenderTermsCAndCpp(ts[1..]);
    }
  }

  lemma RegisterLinesCAndCpp(base: string, parent: Node, reg: Node)
    ensures RegisterLines(C, base, parent, reg) == RegisterLines(Cpp, base, parent, reg)
  {
    FieldLinesCAndCpp(reg, Fields(reg));
    RenderTermsCAndCpp(AddressTerms(parent, reg));
  }

  lemma {:induction false} RegistersLinesCAndCpp(base: string, ps: seq<(Node, Node)>)
    ensures RegistersLines(C, base, ps) == RegistersLines(Cpp, base, ps)
  {
    if ps != [] {
      RegistersLinesCAndCpp(base, ps[..|ps| - 1]);
      RegisterLinesCAndCpp(base, ps[|ps| - 1].0, ps[|ps| - 1].1);
    }
  }

  lemma BlockLinesCAndCpp(block: Node)
    ensures BlockLines(C, block) == BlockLines(Cpp, block)
  {
    var base := BaseAddressName(C, block);
    Flatten(C, base, block, block.children);
    Flatten(Cpp, base, block, block.children);
    RegistersLinesCAndCpp(base, RegistersUnder(block, block.children));
  }

  lemma {:induction false} BlocksLinesCAndCpp(us: seq<Node>)
    ensures BlocksLines(C, us) == BlocksLines(Cpp, us)
  {
    if us != [] {
      BlocksLinesCAndCpp(us[..|us| - 1]);
      BlockLinesCAndCpp(us[|us| - 1]);
    }
  }

  /** `languages="c"` and `languages="cpp"` write the same file, under the same name. */
  lemma CAndCppAgree(stem: string, node: Node)
    ensures OutputFileName(C, stem) == OutputFileName(Cpp, stem)
    ensures ExportLines(C, stem, node) == ExportLines(Cpp, stem, node)
  {
    BlocksLinesCAndCpp(node.unrolled);
    BlockLinesCAndCpp(node);
  }
}
