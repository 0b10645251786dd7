# headergen exporter: a Dafny model

`headerGenExporter` (in `ralbot/headergen/exporter.py`) turns an elaborated
SystemRDL register description into a preprocessor header. The header is a
Verilog `.svh` file or a C/C++ `.h` file. It gives each address block a
symbolic base address defined as 0. Each register gets a macro holding its
address expression relative to that base. Each field gets an offset macro and
a mask macro. The exporter builds the header as a list of lines, exporter
method by exporter method, and writes them newline-joined.

This project models that class and proves what it emits.

- `text.dfy` (module `Text`): the string and number formatting the exporter relies on.
  - Python's `upper()` and `replace()` on ASCII text.
  - `%x`, `%d` and `hex()` numerals, and their reading back.
  - `int('1' * w, 2)` and the bits of a shifted mask.
- `rdl.dfy` (module `Rdl`): the parts of the compiler's node tree the exporter reads.
  - Node kinds, resolved addresses and offsets, array flags and strides, field bit positions.
  - Children with arrays folded and with arrays unrolled.
  - `fields()`, derived from the children by kind.
- `formats.dfy` (module `Formats`): one function per kind of emitted line.
  - The dialect tokens and the constructor's option handling.
  - The output file name and the include guard.
  - Base-address macros, register macros with their three-way address expression, field offset and mask macros.
  - Readers that decode the macro values back. The address summands of a register macro are parsed back, and the name and base in front of them are matched as a known prefix. The offset and mask values of a field macro are read back as numbers. The base-address macro is not parsed: its text is stated in full.
- `emission.dfy` (module `Emission`): what each `add_*` method appends, and what one `export` call appends, as functions of the tree.
  - Flattening of nested blocks.
  - Line counts and the kinds of line emitted.
  - The layout choice between one address block and one block per child.
  - The proof that the `c` and `cpp` dialects write the same file.
- `exporter.dfy` (module `Exporter`): the class `HeaderGenExporter`.
  - Its line buffer `headerFileContent`, plus `baseAddressName` and `filename`, are fields that its methods update.
  - Each method is proved to append exactly the lines module `Emission` gives for it and to leave the other fields as stated.
  - `export`'s layout decision is a counting loop proved equal to the policy it implements.

Behaviour that the model keeps as the source has it:
- The guard lines contain two spaces before `__` (`` `ifndef  __TOP_SVH__ ``), because the directive token already ends in a space.
- A register's macro name is `PARENT_REG`, built from the immediate parent's and the register's instance names only. Two registers get the same macro name only when both of those names coincide, for example same-named registers in same-named register files of two blocks.
- A field's macro names are `REG_REG_FIELD_OFFSET` and `REG_REG_FIELD_MASK`, which hold no parent name. Same-named fields of same-named registers therefore always get the same macro names, whatever their parents.
- When the parent is an array, its offset and stride are used and the register's own array stride is not.
- `export` leaves the guard lines in the buffer when it rejects a node that is not an address map. The buffer is never cleared, so a second `export` call on the same object writes the lines of both calls.

## Model

| member | source | states |
|---|---|---|
| Formats.Options | ralbot/headergen/exporter.py:10-22 | The dialect is rejected exactly when some keyword other than `languages` is given, and the error names the first such keyword in call order. Otherwise the dialect is the one `languages` names, `verilog` by default. |
| Formats.StrayKeysFirst | ralbot/headergen/exporter.py:13-15 | Keywords are left over after popping `languages` exactly when some key is not `languages`. The first one left is the first such key in call order. |
| Exporter.HeaderGenExporter.constructor | ralbot/headergen/exporter.py:8-30 | Verilog gets the backquote and `'h`; C and C++ get `#` and `0x`. The define, ifndef, ifdef and endif tokens are that prefix plus the directive. The buffer, the base name and the file name start empty. |
| Exporter.HeaderGenExporter.Create | ralbot/headergen/exporter.py:8-22 | Keyword handling of the constructor. A stray keyword gives the `TypeError` naming it. Otherwise the result is a fresh, consistent exporter for the dialect `languages` names, with empty state. |
| Formats.GuardTokenShape | ralbot/headergen/exporter.py:40-44 | The guard token is the stem upper-cased with dots replaced, followed by `_SVH` or `_H` for the dialect's extension. It holds no dot and no ASCII lower-case letter. |
| Exporter.HeaderGenExporter.GenDefineMacro | ralbot/headergen/exporter.py:94-96 | Appends exactly the `ifndef` line and the `define` line of the guard, the latter ending in a newline. |
| Exporter.HeaderGenExporter.AddContent | ralbot/headergen/exporter.py:98-99 | Appends exactly one line, the dialect's define token followed by the content. |
| Exporter.HeaderGenExporter.AddAddressBlock | ralbot/headergen/exporter.py:101-110 | Appends the block's `NAME_BASE_ADDR 0` macro, then the lines of all its children against the block's own base. Afterwards the base reference is that block's, with a backquote in front for Verilog. |
| Exporter.HeaderGenExporter.AddRegisterFile | ralbot/headergen/exporter.py:112-117 | Appends, child by child in order: a register's lines against this node as parent, the lines of a nested address map or register file, and nothing for any other child. The base reference is unchanged. |
| Exporter.HeaderGenExporter.AddRegister | ralbot/headergen/exporter.py:119-133 | Appends the register comment, the register macro with the current base, and the two macros of each of its fields in field order. |
| Exporter.HeaderGenExporter.AddField | ralbot/headergen/exporter.py:136-142 | Appends exactly the field's offset macro, then its mask macro. |
| Exporter.DecideExplode | ralbot/headergen/exporter.py:56-72 | The counting loop decides to explode the top node exactly when every addressable child is a non-array address map or memory and there is at least one such child. |
| Exporter.HeaderGenExporter.Export | ralbot/headergen/exporter.py:33-91 | The file name is the stem plus `.svh` or `.h`. A top node that is not an address map is rejected with the `TypeError` naming its class, after the guard lines are appended. Otherwise the appended lines are the guard, then either one block per addressable unrolled child or the top node as a single block, then the `endif` line. The text written is the whole buffer newline-joined, and the resulting base reference is stated. |
| Emission.Flatten | ralbot/headergen/exporter.py:112-117 | Beneath a block, a nested address map or register file adds no line of its own and does not change the base. The lines are exactly those of the registers beneath, each printed against the same base with its immediate parent, in traversal order. |
| Emission.FieldLinesShape | ralbot/headergen/exporter.py:132-142 | A register's fields produce exactly two lines per field, in field order: its offset macro, then its mask macro. |
| Emission.RegisterLinesShape | ralbot/headergen/exporter.py:119-133 | A register produces 2 + 2·(number of fields) lines: the `//register:` comment with its name, its address macro, then each field's offset and mask macros. |
| Emission.BlockLinesKinds | ralbot/headergen/exporter.py:101-110 | An address block opens with `NAME_BASE_ADDR 0`. Every line of it is a define macro or a register comment. |
| Emission.BlockLinesCount | ralbot/headergen/exporter.py:101-133 | An address block has one base line plus two lines per register and two per field beneath it. |
| Emission.ExportLinesShape | ralbot/headergen/exporter.py:45-88 | One export is at least three lines: the two guard lines, then only define macros and register comments, then the `endif` line. |
| Emission.CAndCppAgree | ralbot/headergen/exporter.py:20-22 | `languages="c"` and `languages="cpp"` give the same file name and write the same lines for every tree. |
| Formats.RegisterMacroDecodes | ralbot/headergen/exporter.py:120-130 | A register macro is its name, the base, and an address expression that reads back as the source's three-way choice: the parent's offset, stride and the register's offset when the parent is an array; otherwise the register's offset and stride when it is an array; otherwise its absolute address. The name takes the `(X)` parameter exactly when the expression uses the index. |
| Formats.TermsRoundTrip | ralbot/headergen/exporter.py:124-130 | Every rendered address expression (` + 'h…` summands, index-scaled or not) reads back as exactly the summands it was written from. |
| Formats.FieldOffsetDecodes | ralbot/headergen/exporter.py:137-138 | The offset macro is `REG_REG_FIELD_OFFSET` followed by a decimal numeral that reads back as the field's low bit. |
| Formats.FieldMaskDecodes | ralbot/headergen/exporter.py:140-142 | The mask macro's value is the hex prefix followed by lower-case hex digits with no leading zero, which read back as (2^width − 1)·2^low. |
| Formats.MaskValueFormula | ralbot/headergen/exporter.py:141 | `int('1' * width, 2) << low` equals (2^width − 1)·2^low. |
| Formats.MaskBits | ralbot/headergen/exporter.py:141 | Bit i of the mask is set exactly when low ≤ i < low + width. |
| Text.OnesValue | ralbot/headergen/exporter.py:141 | `int('1' * w, 2)` is 2^w − 1. |
| Text.Numeral | ralbot/headergen/exporter.py:124 | A `%x`/`%d` numeral is non-empty and made of lower-case digits of the base, with no leading zero except for 0 itself. |
| Text.NumeralRoundTrip | ralbot/headergen/exporter.py:124-141 | Reading a `%x`, `%d` or `hex()` numeral back gives the number it was written from. |
| Text.NumeralInjective | ralbot/headergen/exporter.py:124-141 | Different numbers are written differently, so distinct addresses and masks give distinct macro values. |
| Text.Upper | ralbot/headergen/exporter.py:44 | `upper()` keeps the length and upper-cases each ASCII letter in place. |
| Text.ReplaceChar | ralbot/headergen/exporter.py:44 | `replace('.', '_')` keeps the length and replaces exactly the dots. |
| Rdl.FieldsOfMembers | ralbot/headergen/exporter.py:132 | `fields()` is exactly the children that are fields. |
| Rdl.FieldsAreWide | ralbot/headergen/exporter.py:141 | In a well-formed register every field is at least one bit wide, so `int('1' * width, 2)` is defined. |

## Left out

- File system: creating directories, splitting the path and writing the file (lines 34-39 and 89-91) are not modelled. `Export` takes the file stem as an input and returns the newline-joined text it would write. The directory name is not modelled.
- The SystemRDL compiler is not part of this model. The resolved addresses, offsets, strides, bit positions and the unrolled children are given as fields of a node value. Nothing ties `unrolled` to `children`. `fields()` is not given: `Rdl.Fields` derives it from `children`, keeping the children of kind field in order.
- Formats.Options: requires that the value of `languages` be `verilog`, `c` or `cpp`. For any other value the source sets neither prefix. Lines 24-26 still run, and line 27 then fails with an `AttributeError` because `definePrefix` was never set. That path is not modelled.
- Exporter.HeaderGenExporter.Export: requires a well-formed node, one whose fields are all at least one bit wide. SystemRDL forbids zero-width fields, and for one the source would raise a `ValueError` from `int('', 2)`. The same applies to `AddField`, `AddRegister`, `AddRegisterFile` and `AddAddressBlock`.
- Text.Upper: upper-cases only ASCII letters. Python's `upper()` also maps other Unicode letters, and some of them to more than one character (`ß` becomes `SS`). For instance names this makes no difference, because SystemRDL identifiers are ASCII. The output file stem at line 44 comes from the caller's path, though, so a stem with non-ASCII letters gets a different guard token in the model than in the source. The model keeps `é` in `é_H`, while the source writes `É_H`. Likewise, `Formats.GuardTokenShape`'s "no lower-case letter" means no ASCII lower-case letter.
- `ifDef` is set by the constructor but never used by the source. The model sets it and states its value.
- `self.dirname` is not modelled, because it only feeds the file path.
- `AddAddressBlock` emits its children by calling `AddRegisterFile` on the block. The source repeats the same loop inline, with the block as parent, so the emitted lines are the same.
- The commented-out enumeration code after `add_field` (lines 144-148) has no effect and is not modelled.
- The two `TypeError`s are modelled as error values returned to the caller, carrying the source's message text, instead of raised exceptions.
