/** The header exporter: an object holding the dialect's tokens, the list of lines
    emitted so far and the base-address reference of the block being emitted. Each
    method appends to that list exactly the lines module Emission gives for it. */
module Exporter {
  import opened Text
  import opened Rdl
  import opened Formats
  import opened Emission

  /** The layout decision of `export`: count the addressable children that could be
      address blocks of their own and those that could not. */
  method DecideExplode(node: Node) returns (explode: bool)
    ensures explode == ExplodePolicy(node)
  {
    var addrblockable := 0;
    var nonAddrblockable := 0;
    var i := 0;
    while i < |node.children|
      invariant 0 <= i <= |node.children|
      invariant nonAddrblockable == 0 <==>
        forall j :: 0 <= j < i && IsAddressable(node.children[j]) ==> BlockCapable(node.children[j])
      invariant addrblockable >= 1 <==> exists j :: 0 <= j < i && BlockCapable(node.children[j])
      invariant addrblockable >= 0 && nonAddrblockable >= 0
    {
      var child := node.children[i];
      if IsAddressable(child) {
        if (child.kind.Addrmap? || child.kind.Mem?) && !child.isArray {
          addrblockable := addrblockable + 1;
        } else {
          nonAddrblockable := nonAddrblockable + 1;
        }
      }
      i := i + 1;
    }
    explode := nonAddrblockable == 0 && addrblockable >= 1;
    assert explode ==> ExplodePolicy(node) by {
      if explode {
        var j :| 0 <= j < i && BlockCapable(node.children[j]);
        assert node.children[j] in node.children;
      }
    }
    assert ExplodePolicy(node) ==> explode by {
      if ExplodePolicy(node) {
        var c :| c in node.children && BlockCapable(c);
        var j :| 0 <= j < |node.children| && node.children[j] == c;
      }
    }
  }

  class HeaderGenExporter {
    const language: Language
    const definePrefix: string
    const hexPrefix: string
    const define: string
    const ifnDef: string
    const ifDef: string
    const endIf: string

    /** The lines emitted so far; written to the file, newline-joined, at the end of `export`. */
    var headerFileContent: seq<string>
    /** The base-address reference of the address block being emitted. */
    var baseAddressName: string
    /** The name of the file `export` writes. */
    var filename: string

    /** The tokens are those of the configured dialect. */
    ghost predicate Valid()
    {
      && definePrefix == DefinePrefix(language)
      && hexPrefix == HexPrefix(language)
      && define == DefineToken(language)
      && ifnDef == IfndefToken(language)
      && ifDef == IfdefToken(language)
      && endIf == EndifToken(language)
    }

    /** The dialect set-up, once the options have been accepted. */
    constructor (language: Language)
      ensures Valid() && this.language == language
      ensures definePrefix == (if language == Verilog then "`" else "#")
      ensures hexPrefix == (if language == Verilog then "'h" else "0x")
      ensures define == definePrefix + "define " && ifnDef == definePrefix + "ifndef "
      ensures ifDef == definePrefix + "ifdef " && endIf == definePrefix + "endif"
      ensures headerFileContent == [] && baseAddressName == "" && filename == ""
    {
      this.language := language;
      headerFileContent := [];
      var prefix: string;
      if language == Verilog {
        prefix := "`";
        hexPrefix := "'h";
      } else {
        prefix := "#";
        hexPrefix := "0x";
      }
      definePrefix := prefix;
      baseAddressName := "";
      filename := "";
      define := prefix + "define ";
      ifnDef := prefix + "ifndef ";
      ifDef := prefix + "ifdef ";
      endIf := prefix + "endif";
    }

    /** `headerGenExporter(**kwargs)`: a stray keyword argument is rejected, naming it,
        before any dialect set-up; otherwise a fresh exporter with an empty line list. */
    static method Create(kwargs: seq<(string, string)>) returns (r: Result<HeaderGenExporter>)
      requires NoStrayKeys(kwargs) ==> LanguageOption(kwargs) in LanguageNames
      ensures Options(kwargs).Err? ==> r == Err(Options(kwargs).error)
      ensures Options(kwargs).Ok? ==>
        && r.Ok? && fresh(r.value) && r.value.Valid()
        && r.value.language == Options(kwargs).value
        && r.value.headerFileContent == [] && r.value.baseAddressName == "" && r.value.filename == ""
    {
      match Options(kwargs)
      case Err(e) =>
        r := Err(e);
      case Ok(language) =>
        var exporter := new HeaderGenExporter(language);
        r := Ok(exporter);
    }

    /** `genDefineMacro`: the two opening guard lines. */
    method GenDefineMacro(tag: string)
      requires Valid()
      modifies this`headerFileContent
      ensures headerFileContent == old(headerFileContent) + GuardLines(language, tag)
    {
      headerFileContent := headerFileContent + [ifnDef + " __" + tag + "__"];
      headerFileContent := headerFileContent + [define + " __" + tag + "__\n"];
    }

    /** `add_content`: one macro line. */
    method AddContent(content: string)
      requires Valid()
      modifies this`headerFileContent
      ensures headerFileContent == old(headerFileContent) + [DefineToken(language) + content]
    {
      headerFileContent := headerFileContent + [define + content];
    }

    /** `add_addressBlock`: the block's base-address macro, the block's base as the
        reference for everything beneath it, then the block's children. */
    method AddAddressBlock(node: Node)
      requires Valid() && WellFormed(node)
      modifies this`headerFileContent, this`baseAddressName
      ensures headerFileContent == old(headerFileContent) + BlockLines(language, node)
      ensures baseAddressName == BaseAddressName(language, node)
    {
      ghost var head := [DefineToken(language) + BaseContent(node)];
      AddContent(BaseContent(node));
      baseAddressName := if language == Verilog then "`" + BaseMacroName(node) else BaseMacroName(node);
      assert "" + BaseMacroName(node) == BaseMacroName(node);
      assert baseAddressName == BaseAddressName(language, node);
      // The source repeats the loop of add_registerFile here, with this block as the parent.
      AddRegisterFile(node);
      AppendAssociative(old(headerFileContent), head, ChildrenLines(language, baseAddressName, node, node.children));
    }

    /** `add_registerFile`: a register is emitted against this node, a nested address map
        or register file is flattened into the same base, anything else is skipped. */
    method AddRegisterFile(node: Node)
      requires Valid() && WellFormed(node)
      modifies this`headerFileContent
      ensures headerFileContent == old(headerFileContent) + ChildrenLines(language, baseAddressName, node, node.children)
      decreases node
    {
      var i := 0;
      while i < |node.children|
        invariant 0 <= i <= |node.children|
        invariant headerFileContent ==
          old(headerFileContent) + ChildrenLines(language, baseAddressName, node, node.children[..i])
      {
        var child := node.children[i];
        ChildIsWellFormed(node, i);
        ghost var done := ChildrenLines(language, baseAddressName, node, node.children[..i]);
        ghost var step := ChildLines(language, baseAddressName, node, child);
        if child.kind.Reg? {
          AddRegister(node, child);
        } else if child.kind.Addrmap? || child.kind.Regfile? {
          AddRegisterFile(child);
        }
        assert headerFileContent == (old(headerFileContent) + done) + step;
        ChildrenLinesStep(language, baseAddressName, node, node.children, i);
        ghost var next := ChildrenLines(language, baseAddressName, node, node.children[..i + 1]);
        AppendAssociative(old(headerFileContent), done, step);
        assert headerFileContent == old(headerFileContent) + next;
        i := i + 1;
      }
      assert node.children[..i] == node.children;
    }

    /** `add_register`: the comment line, the register macro, then each field's macros. */
    method AddRegister(parent: Node, node: Node)
      requires Valid() && WellFormed(node)
      modifies this`headerFileContent
      ensures headerFileContent == old(headerFileContent) + RegisterLines(language, baseAddressName, parent, node)
    {
      ghost var head := [RegisterComment(node), DefineToken(language) + RegisterMacro(language, baseAddressName, parent, node)];
      headerFileContent := headerFileContent + [RegisterComment(node)];
      AddContent(RegisterMacro(language, baseAddressName, parent, node));
      AppendAssociative(old(headerFileContent), [head[0]], [head[1]]);
      var fields := Fields(node);
      for i := 0 to |fields|
        invariant headerFileContent == old(headerFileContent) + head + FieldLines(language, node, fields[..i])
      {
        FieldsAreWide(node, i);
        ghost var done := FieldLines(language, node, fields[..i]);
        ghost var step := FieldMacros(language, node, fields[i]);
        AddField(node, fields[i]);
        assert headerFileContent == (old(headerFileContent) + head + done) + step;
        FieldLinesStep(language, node, fields, i);
        ghost var next := FieldLines(language, node, fields[..i + 1]);
        AppendAssociative(old(headerFileContent) + head, done, step);
        assert headerFileContent == old(headerFileContent) + head + next;
      }
      assert fields[..|fields|] == fields;
      AppendAssociative(old(headerFileContent), head, FieldLines(language, node, fields));
    }

    /** `add_field`: the offset macro, then the mask macro. */
    method AddField(parent: Node, node: Node)
      requires Valid() && node.width >= 1
      modifies this`headerFileContent
      ensures headerFileContent == old(headerFileContent) + FieldMacros(language, parent, node)
    {
      AddContent(FieldOffsetContent(parent, node));
      AddContent(FieldMaskContent(language, parent, node));
    }

    /** `export`: sets the file name, opens the guard, rejects a top node that is not an
        address map (leaving the guard lines behind and writing nothing), then emits
        one block per addressable unrolled child when the top node explodes and the top
        node as one block otherwise, closes the guard, and gives the text written. */
    method Export(arg: ExportArg, stem: string) returns (r: Result<string>)
      requires Valid() && WellFormed(Resolve(arg))
      modifies this`headerFileContent, this`baseAddressName, this`filename
      ensures filename == OutputFileName(language, stem)
      ensures !Resolve(arg).kind.Addrmap? ==>
        && r == Err(NotAnAddrmap(Resolve(arg).kind))
        && headerFileContent == old(headerFileContent) + GuardLines(language, GuardToken(language, stem))
        && baseAddressName == old(baseAddressName)
      ensures Resolve(arg).kind.Addrmap? ==>
        && headerFileContent == old(headerFileContent) + ExportLines(language, stem, Resolve(arg))
        && r == Ok(JoinLines(headerFileContent))
        && baseAddressName ==
             (if ExplodePolicy(Resolve(arg)) then BaseAfterBlocks(language, old(baseAddressName), Resolve(arg).unrolled)
              else BaseAddressName(language, Resolve(arg)))
    {
      if language == Verilog {
        filename := stem + ".svh";
      } else {
        filename := stem + ".h";
      }
      var tag := ReplaceChar(Upper(filename), '.', '_');
      assert tag == GuardToken(language, stem);
      GenDefineMacro(tag);
      ghost var guard := GuardLines(language, tag);

      var node := if arg.RootNode? then arg.top else arg.node;
      if !node.kind.Addrmap? {
        return Err(NotAnAddrmap(node.kind));
      }

      var explode := DecideExplode(node);
      ghost var base0 := baseAddressName;
      if explode {
        var i := 0;
        while i < |node.unrolled|
          invariant 0 <= i <= |node.unrolled|
          invariant headerFileContent == old(headerFileContent) + guard + BlocksLines(language, node.unrolled[..i])
          invariant baseAddressName == BaseAfterBlocks(language, base0, node.unrolled[..i])
          modifies this`headerFileContent, this`baseAddressName
        {
          var child := node.unrolled[i];
          ghost var done := BlocksLines(language, node.unrolled[..i]);
          ghost var step: seq<string> := [];
          if IsAddressable(child) {
            UnrolledIsWellFormed(node, i);
            AddAddressBlock(child);
            step := BlockLines(language, child);
          }
          BlocksStep(language, base0, node.unrolled, i);
          ghost var next := BlocksLines(language, node.unrolled[..i + 1]);
          assert next == done + step;
          AppendAssociative(old(headerFileContent) + guard, done, step);
          assert headerFileContent == old(headerFileContent) + guard + next;
          i := i + 1;
        }
        assert node.unrolled[..i] == node.unrolled;
      } else {
        AddAddressBlock(node);
      }
      ghost var top := TopLines(language, node);
      assert headerFileContent == old(headerFileContent) + guard + top;

      headerFileContent := headerFileContent + ["\n" + endIf];
      AppendAssociative(old(headerFileContent) + guard, top, [EndLine(language)]);
      AppendAssociative(old(headerFileContent), guard, top + [EndLine(language)]);
      AppendAssociative(guard, top, [EndLine(language)]);
      r := Ok(JoinLines(headerFileContent));
    }
  }
}
