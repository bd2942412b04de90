/** `D3D11ShaderObject::GenShaderText`, the HLSL source handed to the compiler for one
    stage, and the source window printed around the line a compiler message points at. */
module ShaderText {
  import opened Common
  import opened Effects

  // ---------------------------------------------------------------------------------------
  // Generating the shader text

  /** `#define NAME VALUE` for each macro of the effect, one line each, in order. */
  function MacroLines(macros: seq<(string, string)>): (t: string)
    decreases |macros|
  {
    if macros == [] then ""
    else
      var m := macros[|macros| - 1];
      MacroLines(macros[..|macros| - 1]) + "#define " + m.0 + " " + m.1 + "\n"
  }

  /** The member declaration a constant-buffer parameter contributes, `Type name;` or
      `Type name[size];`; resources are declared outside the constant buffers. */
  function MemberLine(p: EffectParam): (t: string)
    ensures t == "" <==> IsResourceType(p.kind)
    ensures t != "" ==> EndsWith(t, ";\n")
  {
    if IsResourceType(p.kind) then ""
    else
      var pre := p.typeName + " " + p.name + (if p.arraySize.Some? then "[" + p.arraySize.value + "]" else "");
      assert (pre + ";\n")[|pre|..] == ";\n";
      pre + ";\n"
  }

  /** Every index a constant buffer of the effect lists names one of its parameters. */
  predicate IndicesValid(e: Effect) {
    forall c :: 0 <= c < |e.cbuffers| ==> ParamIndices(e, e.cbuffers[c].1)
  }

  predicate ParamIndices(e: Effect, indices: seq<nat>) {
    forall k :: 0 <= k < |indices| ==> indices[k] < |e.params|
  }

  function MemberLines(e: Effect, indices: seq<nat>): (t: string)
    requires ParamIndices(e, indices)
    decreases |indices|
  {
    if indices == [] then ""
    else MemberLines(e, indices[..|indices| - 1]) + MemberLine(e.params[indices[|indices| - 1]])
  }

  /** A constant buffer whose members are all resources is declared empty. */
  lemma {:induction false} MemberLinesSkipResources(e: Effect, indices: seq<nat>)
    requires ParamIndices(e, indices)
    ensures MemberLines(e, indices) == "" <==> forall k :: 0 <= k < |indices| ==> IsResourceType(e.params[indices[k]].kind)
    decreases |indices|
  {
    if indices != [] {
      var init := indices[..|indices| - 1];
      MemberLinesSkipResources(e, init);
      assert forall k :: 0 <= k < |init| ==> init[k] == indices[k];
    }
  }

  /** `cbuffer NAME { ... };` for each constant buffer of the effect, in order. */
  function CBufferBlocks(e: Effect, n: nat): (t: string)
    requires IndicesValid(e) && n <= |e.cbuffers|
  {
    if n == 0 then ""
    else
      var cb := e.cbuffers[n - 1];
      CBufferBlocks(e, n - 1) + "cbuffer " + cb.0 + "\n{\n" + MemberLines(e, cb.1) + "};\n"
  }

  /** `s` ends with `suffix`. */
  predicate EndsWith(s: string, suffix: string) {
    |suffix| <= |s| && s[|s| - |suffix|..] == suffix
  }

  /** `Keyword<Elem> name;` */
  function Templated(keyword: string, p: EffectParam): (t: string)
    ensures EndsWith(t, p.name + ";\n") && |t| > |p.name| + 2
  {
    var pre := keyword + "<" + p.elemType + "> ";
    assert pre + p.name + ";\n" == pre + (p.name + ";\n");
    pre + p.name + ";\n"
  }

  /** `Keyword name;` */
  function Plain(keyword: string, p: EffectParam): (t: string)
    ensures EndsWith(t, p.name + ";\n") && |t| > |p.name| + 2
  {
    var pre := keyword + " ";
    assert pre + p.name + ";\n" == pre + (p.name + ";\n");
    pre + p.name + ";\n"
  }

  /** The declaration of a resource parameter outside the constant buffers. Textures of one
      to three dimensions, cube textures and samplers are always declared; the remaining
      read-only kinds and the read-write structured and byte-address buffers need shader
      model 4; the remaining read-write kinds and append and consume buffers need shader
      model 5. Arrays of 3D textures and non-resource parameters get nothing. */
  function ResourceDecl(p: EffectParam, maxSM: nat): (t: string)
  {
    match p.kind
    case Texture1D => Templated("Texture1D", p)
    case Texture2D => Templated("Texture2D", p)
    case Texture3D => Templated("Texture3D", p)
    case TextureCube => Templated("TextureCube", p)
    case Texture1DArray => if maxSM >= 4 then Templated("Texture1DArray", p) else ""
    case Texture2DArray => if maxSM >= 4 then Templated("Texture2DArray", p) else ""
    case TextureCubeArray => if maxSM >= 4 then Templated("TextureCubeArray", p) else ""
    case Buffer => if maxSM >= 4 then Templated("Buffer", p) else ""
    case Sampler => Plain("sampler", p)
    case StructuredBuffer => if maxSM >= 4 then Templated("StructuredBuffer", p) else ""
    case ByteAddressBuffer => if maxSM >= 4 then Plain("ByteAddressBuffer", p) else ""
    case RwBuffer => if maxSM >= 5 then Templated("RWBuffer", p) else ""
    case RwStructuredBuffer => if maxSM >= 4 then Templated("RWStructuredBuffer", p) else ""
    case RwTexture1D => if maxSM >= 5 then Templated("RWTexture1D", p) else ""
    case RwTexture2D => if maxSM >= 5 then Templated("RWTexture2D", p) else ""
    case RwTexture3D => if maxSM >= 5 then Templated("RWTexture3D", p) else ""
    case RwTexture1DArray => if maxSM >= 5 then Templated("RWTexture1DArray", p) else ""
    case RwTexture2DArray => if maxSM >= 5 then Templated("RWTexture2DArray", p) else ""
    case RwByteAddressBuffer => if maxSM >= 4 then Plain("RWByteAddressBuffer", p) else ""
    case AppendStructuredBuffer => if maxSM >= 5 then Templated("AppendStructuredBuffer", p) else ""
    case ConsumeStructuredBuffer => if maxSM >= 5 then Templated("ConsumeStructuredBuffer", p) else ""
    case _ => ""
  }

  /** The shader model each declared resource type needs, as a table: `None` for the types
      that are never declared. */
  function DeclModel(t: EffectType): (m: Option<nat>)
  {
    match t
    case Texture1D | Texture2D | Texture3D | TextureCube | Sampler => Some(0)
    case Texture1DArray | Texture2DArray | TextureCubeArray | Buffer | StructuredBuffer
       | ByteAddressBuffer | RwStructuredBuffer | RwByteAddressBuffer => Some(4)
    case RwBuffer | RwTexture1D | RwTexture2D | RwTexture3D | RwTexture1DArray | RwTexture2DArray
       | AppendStructuredBuffer | ConsumeStructuredBuffer => Some(5)
    case _ => None
  }

  /** A parameter is declared exactly when its type is declarable and the device meets the
      shader model the type needs; the declaration then ends with the parameter's name. */
  lemma ResourceDeclGating(p: EffectParam, maxSM: nat)
    ensures ResourceDecl(p, maxSM) != "" <==> DeclModel(p.kind).Some? && maxSM >= DeclModel(p.kind).value
    ensures ResourceDecl(p, maxSM) != "" ==> EndsWith(ResourceDecl(p, maxSM), p.name + ";\n")
  {
  }

  /** The declarable types are the resource types except arrays of 3D textures, which HLSL
      does not have. */
  lemma DeclaredTypes(t: EffectType)
    ensures DeclModel(t).Some? <==> IsResourceType(t) && t != Texture3DArray
  {
  }

  function ResourceDecls(ps: seq<EffectParam>, maxSM: nat): (t: string)
    decreases |ps|
  {
    if ps == [] then "" else ResourceDecls(ps[..|ps| - 1], maxSM) + ResourceDecl(ps[|ps| - 1], maxSM)
  }

  /** A fragment goes into the text for stage `st` when it is for every stage or for `st`
      and the device supports its shader model. */
  predicate Included(f: ShaderFragment, st: nat, maxSM: nat) {
    (f.stage == NumStages || f.stage == st) && maxSM >= f.version
  }

  /** The included fragments, in the effect's order. */
  function Selected(fs: seq<ShaderFragment>, st: nat, maxSM: nat): (r: seq<ShaderFragment>)
    ensures |r| <= |fs|
    decreases |fs|
  {
    if fs == [] then []
    else
      var f := fs[|fs| - 1];
      Selected(fs[..|fs| - 1], st, maxSM) + (if Included(f, st, maxSM) then [f] else [])
  }

  /** A fragment is selected exactly when it is one of the effect's and it is included. */
  lemma {:induction false} SelectedIff(fs: seq<ShaderFragment>, st: nat, maxSM: nat)
    ensures forall f :: f in Selected(fs, st, maxSM) <==> f in fs && Included(f, st, maxSM)
    decreases |fs|
  {
    if fs != [] {
      var init := fs[..|fs| - 1];
      SelectedIff(init, st, maxSM);
      assert forall f :: f in fs <==> f in init || f == fs[|fs| - 1];
    }
  }

  /** Selection keeps the effect's order: selecting from a concatenation concatenates the
      selections. */
  lemma {:induction false} SelectedAppend(a: seq<ShaderFragment>, b: seq<ShaderFragment>, st: nat, maxSM: nat)
    ensures Selected(a + b, st, maxSM) == Selected(a, st, maxSM) + Selected(b, st, maxSM)
    decreases |b|
  {
    if b == [] {
      assert a + b == a;
    } else {
      var ab := a + b;
      assert ab[..|ab| - 1] == a + b[..|b| - 1];
      SelectedAppend(a, b[..|b| - 1], st, maxSM);
    }
  }

  /** Each selected fragment's text followed by a line break. */
  function FragmentLines(fs: seq<ShaderFragment>): (t: string)
    decreases |fs|
  {
    if fs == [] then "" else FragmentLines(fs[..|fs| - 1]) + fs[|fs| - 1].text + "\n"
  }

  /** The part of the text every stage shares: macros, an empty line, constant buffers and
      resource declarations. */
  function SharedText(e: Effect, maxSM: nat): string
    requires IndicesValid(e)
  {
    MacroLines(e.macros) + "\n" + CBufferBlocks(e, |e.cbuffers|) + ResourceDecls(e.params, maxSM)
  }

  /** `GenShaderText(effect, st)` on a device whose highest shader model is `maxSM`. */
  function GenShaderText(e: Effect, st: nat, maxSM: nat): (t: string)
    requires IndicesValid(e)
    ensures SharedText(e, maxSM) <= t
    ensures t[|SharedText(e, maxSM)|..] == FragmentLines(Selected(e.fragments, st, maxSM))
  {
    SharedText(e, maxSM) + FragmentLines(Selected(e.fragments, st, maxSM))
  }

  /** The fragments part of the text, one effect fragment at a time: one more fragment
      appends its text and a line break exactly when it is included for this stage. */
  lemma GenShaderTextAppend(e: Effect, f: ShaderFragment, st: nat, maxSM: nat)
    requires IndicesValid(e)
    ensures IndicesValid(e.(fragments := e.fragments + [f]))
    ensures GenShaderText(e.(fragments := e.fragments + [f]), st, maxSM)
            == GenShaderText(e, st, maxSM) + (if Included(f, st, maxSM) then f.text + "\n" else "")
  {
    var e' := e.(fragments := e.fragments + [f]);
    SharedTextOfParams(e, e', maxSM);
    SelectedLinesAppend(e.fragments, f, st, maxSM);
    var sh := SharedText(e, maxSM);
    var fl := FragmentLines(Selected(e.fragments, st, maxSM));
    var tail := if Included(f, st, maxSM) then f.text + "\n" else "";
    AppendAssoc(sh, fl, tail);
  }

  lemma AppendAssoc(a: string, b: string, c: string)
    ensures a + (b + c) == (a + b) + c
  {
  }

  /** One more fragment appends its line to the fragments part exactly when it is included. */
  lemma SelectedLinesAppend(fs: seq<ShaderFragment>, f: ShaderFragment, st: nat, maxSM: nat)
    ensures FragmentLines(Selected(fs + [f], st, maxSM))
            == FragmentLines(Selected(fs, st, maxSM)) + (if Included(f, st, maxSM) then f.text + "\n" else "")
  {
    var fs' := fs + [f];
    assert fs'[..|fs'| - 1] == fs;
    var sel := Selected(fs, st, maxSM);
    if Included(f, st, maxSM) {
      assert Selected(fs', st, maxSM) == sel + [f];
      assert (sel + [f])[..|sel|] == sel;
    } else {
      assert Selected(fs', st, maxSM) == sel;
    }
  }

  /** The shared part reads only the effect's macros, parameters and buffers. */
  lemma SharedTextOfParams(e: Effect, e': Effect, maxSM: nat)
    requires IndicesValid(e) && e'.params == e.params && e'.cbuffers == e.cbuffers && e'.macros == e.macros
    ensures IndicesValid(e') && SharedText(e', maxSM) == SharedText(e, maxSM)
  {
    CBufferBlocksOfParams(e, e', |e.cbuffers|);
  }

  /** The constant-buffer blocks read only the effect's parameters and buffers. */
  lemma CBufferBlocksOfParams(e: Effect, e': Effect, n: nat)
    requires IndicesValid(e) && e'.params == e.params && e'.cbuffers == e.cbuffers && n <= |e.cbuffers|
    ensures IndicesValid(e') && CBufferBlocks(e', n) == CBufferBlocks(e, n)
  {
    if n > 0 {
      CBufferBlocksOfParams(e, e', n - 1);
      MemberLinesOfParams(e, e', e.cbuffers[n - 1].1);
    }
  }

  lemma MemberLinesOfParams(e: Effect, e': Effect, indices: seq<nat>)
    requires ParamIndices(e, indices) && e'.params == e.params
    ensures ParamIndices(e', indices) && MemberLines(e', indices) == MemberLines(e, indices)
    decreases |indices|
  {
    if indices != [] {
      MemberLinesOfParams(e, e', indices[..|indices| - 1]);
    }
  }

  /** Two stages' texts differ only in their fragments: a stage sees the same text as
      another whenever the same fragments are included for both. */
  lemma StagesShareText(e: Effect, st: nat, st': nat, maxSM: nat)
    requires IndicesValid(e)
    requires forall f :: f in e.fragments ==> (Included(f, st, maxSM) <==> Included(f, st', maxSM))
    ensures GenShaderText(e, st, maxSM) == GenShaderText(e, st', maxSM)
  {
    SelectedSame(e.fragments, st, st', maxSM);
  }

  lemma {:induction false} SelectedSame(fs: seq<ShaderFragment>, st: nat, st': nat, maxSM: nat)
    requires forall f :: f in fs ==> (Included(f, st, maxSM) <==> Included(f, st', maxSM))
    ensures Selected(fs, st, maxSM) == Selected(fs, st', maxSM)
    decreases |fs|
  {
    if fs != [] {
      var init := fs[..|fs| - 1];
      assert forall f :: f in init ==> f in fs;
      SelectedSame(init, st, st', maxSM);
      assert fs[|fs| - 1] in fs;
    }
  }

  // ---------------------------------------------------------------------------------------
  // The compiler message's line number

  /** `pat` occurs in `s` at position `i`. */
  predicate OccursAt(s: string, pat: string, i: nat) {
    i + |pat| <= |s| && s[i..i + |pat|] == pat
  }

  /** `std::string::find`: the first position at which `pat` occurs, from `from` on. */
  function Find(s: string, pat: string, from: nat): (r: Option<nat>)
    requires from <= |s|
    ensures r.Some? ==> from <= r.value && OccursAt(s, pat, r.value)
    ensures r.Some? ==> forall i :: from <= i < r.value ==> !OccursAt(s, pat, i)
    ensures r.None? ==> forall i :: from <= i <= |s| ==> !OccursAt(s, pat, i)
    decreases |s| - from
  {
    if OccursAt(s, pat, from) then Some(from)
    else if from == |s| then None
    else Find(s, pat, from + 1)
  }

  /** `std::string::rfind` of one character: its last position. */
  function RFind(s: string, c: char): (r: Option<nat>)
    ensures r.Some? ==> r.value < |s| && s[r.value] == c
    ensures r.Some? ==> forall i :: r.value < i < |s| ==> s[i] != c
    ensures r.None? ==> forall i :: 0 <= i < |s| ==> s[i] != c
    decreases |s|
  {
    if s == [] then None
    else if s[|s| - 1] == c then Some(|s| - 1)
    else RFind(s[..|s| - 1], c)
  }

  predicate IsDigit(c: char) {
    '0' <= c <= '9'
  }

  predicate IsSpace(c: char) {
    c == ' ' || c == '\t' || c == '\n' || c == '\r' || c == '\U{000B}' || c == '\U{000C}'
  }

  /** The leading run of decimal digits. */
  function LeadingDigits(s: string): (d: string)
    ensures |d| <= |s| && d == s[..|d|]
    ensures forall i :: 0 <= i < |d| ==> IsDigit(d[i])
    ensures |d| < |s| ==> !IsDigit(s[|d|])
    decreases |s|
  {
    if s == [] || !IsDigit(s[0]) then [] else [s[0]] + LeadingDigits(s[1..])
  }

  function DigitsValue(d: string): (n: nat)
    requires forall i :: 0 <= i < |d| ==> IsDigit(d[i])
    decreases |d|
  {
    if d == [] then 0
    else
      var c := d[|d| - 1];
      assert IsDigit(c);
      DigitsValue(d[..|d| - 1]) * 10 + (c as int - '0' as int)
  }

  function DropSpaces(s: string): (t: string)
    ensures |t| <= |s| && t == s[|s| - |t|..]
    ensures t != [] ==> !IsSpace(t[0])
    decreases |s|
  {
    if s != [] && IsSpace(s[0]) then DropSpaces(s[1..]) else s
  }

  /** `iss >> err_line`: leading white space skipped, an optional sign, then decimal
      digits; no digits at all reads as 0. */
  function ParseInt(s: string): (r: int)
  {
    var t := DropSpaces(s);
    if t != [] && (t[0] == '-' || t[0] == '+') then
      var d := LeadingDigits(t[1..]);
      if t[0] == '-' then -(DigitsValue(d) as int) else DigitsValue(d)
    else DigitsValue(LeadingDigits(t))
  }

  /** The line number a compiler message points at: the number after the last `(` before
      the first `): error X`, or failing that the first `): warning X`; `None` when the
      message has neither. With no `(` the whole prefix is read. */
  function ErrorLine(msg: string): (r: Option<int>)
  {
    var pos := match Find(msg, "): error X", 0)
               case Some(p) => Some(p)
               case None => Find(msg, "): warning X", 0);
    if pos.None? then None
    else
      var part := msg[..pos.value];
      var open := RFind(part, '(');
      Some(ParseInt(if open.None? then part else part[open.value + 1..]))
  }

  /** The decimal spelling of a natural number. */
  function NatToString(n: nat): (s: string)
    ensures |s| > 0 && forall i :: 0 <= i < |s| ==> IsDigit(s[i])
    decreases n
  {
    var d := ['0' + (n % 10) as char];
    if n < 10 then d else NatToString(n / 10) + d
  }

  lemma {:induction false} DigitsValueOfString(n: nat)
    ensures DigitsValue(NatToString(n)) == n
    decreases n
  {
    var s := NatToString(n);
    if n >= 10 {
      DigitsValueOfString(n / 10);
      assert s[..|s| - 1] == NatToString(n / 10);
    }
  }

  lemma {:induction false} LeadingDigitsOf(d: string, rest: string)
    requires forall i :: 0 <= i < |d| ==> IsDigit(d[i])
    requires rest == [] || !IsDigit(rest[0])
    ensures LeadingDigits(d + rest) == d
    decreases |d|
  {
    if d == [] {
      assert d + rest == rest;
    } else {
      assert (d + rest)[1..] == d[1..] + rest;
      LeadingDigitsOf(d[1..], rest);
    }
  }

  /** No character of `s` is `c`. */
  predicate Lacks(s: string, c: char) {
    forall i :: 0 <= i < |s| ==> s[i] != c
  }

  lemma LacksConcat(a: string, b: string, c: char)
    requires Lacks(a, c) && Lacks(b, c)
    ensures Lacks(a + b, c)
  {
  }

  /** A search for a pattern finds its occurrence at `p` when no earlier character starts
      the pattern. */
  lemma FindFirst(s: string, pat: string, p: nat)
    requires |pat| > 0 && OccursAt(s, pat, p)
    requires forall i :: 0 <= i < p ==> s[i] != pat[0]
    ensures Find(s, pat, 0) == Some(p)
  {
    var r := Find(s, pat, 0);
    assert r.Some?;
    assert s[r.value] == s[r.value..r.value + |pat|][0];
  }

  /** What precedes `): error X` in a message of the HLSL compiler:
      `FILE(LINE,COLUMN`. */
  function MessageHead(file: string, line: nat, column: string): string {
    file + "(" + (NatToString(line) + ("," + column))
  }

  /** The message format of the HLSL compiler: `FILE(LINE,COLUMN): error XNNNN: TEXT`. */
  function CompilerMessage(file: string, line: nat, column: string, rest: string): string {
    MessageHead(file, line, column) + ("): error X" + rest)
  }

  lemma FindInMessage(file: string, line: nat, column: string, rest: string)
    requires Lacks(file, ')') && Lacks(column, ')')
    ensures Find(CompilerMessage(file, line, column, rest), "): error X", 0) == Some(|MessageHead(file, line, column)|)
  {
    var numbers := NatToString(line) + ("," + column);
    LacksConcat(NatToString(line), "," + column, ')');
    var head := MessageHead(file, line, column);
    LacksConcat(file + "(", numbers, ')');
    var pat := "): error X";
    var msg := CompilerMessage(file, line, column, rest);
    assert msg[|head|..|head| + |pat|] == pat;
    assert forall i :: 0 <= i < |head| ==> msg[i] == head[i];
    FindFirst(msg, pat, |head|);
  }

  lemma RFindInHead(file: string, line: nat, column: string)
    requires Lacks(column, '(')
    ensures RFind(MessageHead(file, line, column), '(') == Some(|file|)
  {
    var numbers := NatToString(line) + ("," + column);
    LacksConcat(NatToString(line), "," + column, '(');
    var head := MessageHead(file, line, column);
    assert head[|file|] == '(';
    assert forall i :: |file| < i < |head| ==> head[i] == numbers[i - |file| - 1];
  }

  lemma ParseNumbers(line: nat, column: string)
    ensures ParseInt(NatToString(line) + ("," + column)) == line
  {
    var digits := NatToString(line);
    var numbers := digits + ("," + column);
    var c := numbers[0];
    assert c == digits[0] && IsDigit(c);
    assert !IsSpace(c) && c != '-' && c != '+';
    assert DropSpaces(numbers) == numbers;
    LeadingDigitsOf(digits, "," + column);
    assert ParseInt(numbers) == DigitsValue(LeadingDigits(numbers));
    DigitsValueOfString(line);
  }

  /** Reading the line back from a message in the compiler's format recovers the line,
      whatever the file name, column and message text, provided the file name and column
      contain no parentheses. */
  lemma ErrorLineRoundTrip(file: string, line: nat, column: string, rest: string)
    requires Lacks(file, '(') && Lacks(file, ')') && Lacks(column, '(') && Lacks(column, ')')
    ensures ErrorLine(CompilerMessage(file, line, column, rest)) == Some(line)
  {
    var head := MessageHead(file, line, column);
    var msg := CompilerMessage(file, line, column, rest);
    FindInMessage(file, line, column, rest);
    assert msg[..|head|] == head;
    RFindInHead(file, line, column);
    assert head[|file| + 1..] == NatToString(line) + ("," + column);
    ParseNumbers(line, column);
  }

  // ---------------------------------------------------------------------------------------
  // The source window around the error line

  /** The lines `std::getline` reads from a text, in order: the text split at each line
      break (a text ending in a line break yields a last, empty line). */
  function Lines(t: string): (ls: seq<string>)
    ensures |ls| >= 1
    ensures forall k, i :: 0 <= k < |ls| && 0 <= i < |ls[k]| ==> ls[k][i] != '\n'
    decreases |t|
  {
    match RFind(t, '\n')
    case None => [t]
    case Some(i) => Lines(t[..i]) + [t[i + 1..]]
  }

  /** The lines joined again with line breaks. */
  function Join(ls: seq<string>): (t: string)
    requires |ls| >= 1
    decreases |ls|
  {
    if |ls| == 1 then ls[0] else Join(ls[..|ls| - 1]) + "\n" + ls[|ls| - 1]
  }

  /** Splitting loses nothing: joining the lines gives the text back. */
  lemma {:induction false} LinesJoin(t: string)
    ensures Join(Lines(t)) == t
    decreases |t|
  {
    match RFind(t, '\n')
    case None =>
    case Some(i) =>
      LinesJoin(t[..i]);
      var ls := Lines(t);
      assert ls[..|ls| - 1] == Lines(t[..i]);
      assert t == t[..i] + "\n" + t[i + 1..];
  }

  /** The printed window: each line (numbered from 1) whose number is within two of the
      error line, in order. */
  function Window(ls: seq<string>, errLine: int): (w: seq<(int, string)>)
    decreases |ls|
  {
    if ls == [] then []
    else
      var n := |ls|;
      Window(ls[..n - 1], errLine) + (if -3 < n - errLine < 3 then [(n, ls[n - 1])] else [])
  }

  /** Every line within two of the error line is printed, with its own number and text, and
      nothing else is. */
  lemma {:induction false} WindowExact(ls: seq<string>, errLine: int)
    ensures forall k :: 0 <= k < |ls| ==> ((k + 1, ls[k]) in Window(ls, errLine) <==> -3 < k + 1 - errLine < 3)
    ensures forall e :: e in Window(ls, errLine) ==>
      1 <= e.0 <= |ls| && e.1 == ls[e.0 - 1] && -3 < e.0 - errLine < 3
    decreases |ls|
  {
    if ls != [] {
      var n := |ls|;
      var init := ls[..n - 1];
      WindowExact(init, errLine);
      forall k | 0 <= k < n - 1
        ensures init[k] == ls[k]
      {
      }
    }
  }

  /** The window has one entry per line number in `[errLine - 2, errLine + 2]` that the
      text has, so at most five. */
  lemma {:induction false} WindowSize(ls: seq<string>, errLine: int)
    ensures |Window(ls, errLine)| == IntMax(0, IntMin(|ls|, errLine + 2) - IntMax(1, errLine - 2) + 1)
    ensures |Window(ls, errLine)| <= 5
    decreases |ls|
  {
    if ls != [] {
      WindowSize(ls[..|ls| - 1], errLine);
    }
  }

  function IntMin(a: int, b: int): int {
    if a <= b then a else b
  }

  function IntMax(a: int, b: int): int {
    if a <= b then b else a
  }

  /** The text's window: the lines printed around the line a compiler message points at. */
  function ErrorWindow(text: string, msg: string): (w: seq<(int, string)>)
    ensures ErrorLine(msg).None? ==> w == []
    ensures |w| <= 5
  {
    match ErrorLine(msg)
    case None => []
    case Some(n) => WindowSize(Lines(text), n); Window(Lines(text), n)
  }
}
