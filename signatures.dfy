/** STELLA function signatures as the Python API sees them.

    A signature is the tab-split list of strings the native library returns:
    the function's native name, its native return type, its STELLA return type,
    and then one triple per parameter (native name, native type, STELLA type).
    The accessors below are index arithmetic over that list; the rest apply the
    string rules used to generate C/C++ call wrappers. */
module Signatures {
  import opened PyStrings

  datatype Option<T> = None | Some(value: T)

  type Signature = seq<string>

  /** The STELLA type name that marks an `int` as a C++ `bool`. */
  const BOOLEAN_TYPE: string := "/STELLA/@BOOLEAN"

  function SigFunctionName(sig: Signature): string
    requires |sig| > 0
  {
    sig[0]
  }

  function SigNativeReturnType(sig: Signature): string
    requires |sig| > 1
  {
    sig[1]
  }

  function SigStellaReturnType(sig: Signature): string
    requires |sig| > 2
  {
    sig[2]
  }

  /** `len(sig) // 3 - 1`: the number of complete parameter triples after the
      header; it is -1 for a list shorter than the header. */
  function SigArity(sig: Signature): (a: int)
    ensures a >= -1
    ensures |sig| < 3 ==> a == -1
    ensures |sig| >= 3 ==> 3 * (a + 1) <= |sig| < 3 * (a + 2)
  {
    |sig| / 3 - 1
  }

  /** All three fields of parameter triple `pi` are inside the list. */
  predicate TripleInBounds(sig: Signature, pi: int) {
    0 <= pi && (pi + 1) * 3 + 2 < |sig|
  }

  /** The number of indices `range(SigArity(sig))` visits; each of them reads a
      complete parameter triple. */
  function NumParams(sig: Signature): (n: nat)
    ensures n <= |sig| / 3
    ensures forall pi :: 0 <= pi < n ==> TripleInBounds(sig, pi)
  {
    if SigArity(sig) < 0 then 0 else SigArity(sig)
  }

  function SigParaNativeName(sig: Signature, pi: nat): string
    requires (pi + 1) * 3 < |sig|
  {
    sig[(pi + 1) * 3]
  }

  function SigParaNativeType(sig: Signature, pi: nat): string
    requires (pi + 1) * 3 + 1 < |sig|
  {
    sig[(pi + 1) * 3 + 1]
  }

  function SigParaStellaType(sig: Signature, pi: nat): string
    requires (pi + 1) * 3 + 2 < |sig|
  {
    sig[(pi + 1) * 3 + 2]
  }

  /** A signature made of the header and complete parameter triples only. */
  predicate WellFormed(sig: Signature) {
    |sig| >= 3 && |sig| % 3 == 0
  }

  /** In a well-formed signature the triples fill the list exactly. */
  lemma ArityCountsTriples(sig: Signature)
    ensures WellFormed(sig) <==> SigArity(sig) >= 0 && |sig| == 3 * (SigArity(sig) + 1)
  {
  }

  /** A parameter return slot: native name `_Return…` with a reference type `…&`,
      that is, a name whose first seven characters spell `_Return` and a type
      whose last character is `&`. */
  predicate SigIsReturnPara(sig: Signature, pi: nat)
    requires (pi + 1) * 3 + 1 < |sig|
    ensures var name, ty := SigParaNativeName(sig, pi), SigParaNativeType(sig, pi);
      SigIsReturnPara(sig, pi) <==>
        (|name| >= 7 && name[..7] == ['_', 'R', 'e', 't', 'u', 'r', 'n'] &&
         |ty| >= 1 && ty[|ty| - 1] == '&')
  {
    StartsWith(SigParaNativeName(sig, pi), "_Return") && EndsWith(SigParaNativeType(sig, pi), "&")
  }

  /** The precondition of reading the C++ return type: the native return type is
      readable and, for an `int`, so is the STELLA return type. */
  predicate ReturnTypeReadable(sig: Signature) {
    |sig| > 1 && (sig[1] == "int" ==> |sig| > 2)
  }

  /** The native return type, with an `int` that stands for a STELLA boolean
      shown as `bool`. The STELLA type is only consulted for an `int`. */
  function SigNativeCppReturnType(sig: Signature): (r: string)
    requires ReturnTypeReadable(sig)
    ensures r == "bool" || r == SigNativeReturnType(sig)
  {
    var rtype := SigNativeReturnType(sig);
    if rtype == "int" && SigStellaReturnType(sig) == BOOLEAN_TYPE then "bool" else rtype
  }

  /** The return type changes exactly for an `int` that is a STELLA boolean. */
  lemma NativeCppReturnTypeMapsBooleans(sig: Signature)
    requires ReturnTypeReadable(sig)
    ensures SigNativeCppReturnType(sig) != SigNativeReturnType(sig) <==>
      SigNativeReturnType(sig) == "int" && SigStellaReturnType(sig) == BOOLEAN_TYPE
  {
  }

  /** The precondition of `SigParaNativeCppType`: the native type is readable and,
      for a type starting with `int`, so is the STELLA type. */
  predicate ParaCppTypeReadable(sig: Signature, pi: nat) {
    (pi + 1) * 3 + 1 < |sig| &&
    (StartsWith(sig[(pi + 1) * 3 + 1], "int") ==> (pi + 1) * 3 + 2 < |sig|)
  }

  /** A parameter's native type, with every `int` replaced by `bool` when the
      type starts with `int` and the STELLA type is the boolean type. */
  function SigParaNativeCppType(sig: Signature, pi: nat): (r: string)
    requires ParaCppTypeReadable(sig, pi)
    ensures r == SigParaNativeType(sig, pi) || StartsWith(r, "bool")
  {
    var ptype := SigParaNativeType(sig, pi);
    if StartsWith(ptype, "int") && SigParaStellaType(sig, pi) == BOOLEAN_TYPE then
      Replace(ptype, "int", "bool")
    else
      ptype
  }

  /** The type is rewritten exactly when it is an `int` type of a STELLA boolean;
      the rewritten type starts with `bool`, holds no `int` any more, and keeps
      a trailing `&`. */
  lemma ParaNativeCppTypeMapsBooleans(sig: Signature, pi: nat)
    requires ParaCppTypeReadable(sig, pi)
    ensures var t, r := SigParaNativeType(sig, pi), SigParaNativeCppType(sig, pi);
      var mapped := StartsWith(t, "int") && SigParaStellaType(sig, pi) == BOOLEAN_TYPE;
      && (!mapped ==> r == t)
      && (mapped ==> StartsWith(r, "bool") && forall k :: !OccursAt(r, "int", k))
      && (r != t <==> mapped)
      && (EndsWith(t, "&") ==> EndsWith(r, "&"))
  {
    var ptype := SigParaNativeType(sig, pi);
    if StartsWith(ptype, "int") && SigParaStellaType(sig, pi) == BOOLEAN_TYPE {
      var r := Replace(ptype, "int", "bool");
      ReplaceIntLeavesNoInt(ptype);
      assert r == "bool" + Replace(ptype[3..], "int", "bool");
      assert r[0] != ptype[0];
      if EndsWith(ptype, "&") {
        ReplaceKeepsLastChar(ptype, "int", "bool", '&');
      }
    }
  }

  /** CFFI has no reference types: a trailing `&` becomes `*`. */
  function PointerizeReturnParameterType(ptype: string): (r: string)
    ensures |r| == |ptype|
    ensures !EndsWith(r, "&")
    ensures EndsWith(ptype, "&") ==> EndsWith(r, "*") && r[..|r| - 1] == ptype[..|ptype| - 1]
    ensures !EndsWith(ptype, "&") ==> r == ptype
  {
    if EndsWith(ptype, "&") then ptype[0..|ptype| - 1] + "*" else ptype
  }

  lemma PointerizeIdempotent(ptype: string)
    ensures PointerizeReturnParameterType(PointerizeReturnParameterType(ptype)) ==
            PointerizeReturnParameterType(ptype)
  {
  }

  /** A native name made usable in Python: a keyword gets a trailing `_`.
      `isKeyword` stands for Python's `keyword.iskeyword`. */
  function NativeNameToPython(isKeyword: string -> bool, name: string): (r: string)
    ensures StartsWith(r, name)
    ensures |r| == if isKeyword(name) then |name| + 1 else |name|
    ensures isKeyword(name) ==> EndsWith(r, "_")
  {
    if isKeyword(name) then name + "_" else name
  }

  /** No Python keyword ends in `_`, so a mangled name is never a keyword. */
  lemma MangledNameIsNotKeyword(isKeyword: string -> bool, name: string)
    requires forall k :: isKeyword(k) ==> !EndsWith(k, "_")
    ensures !isKeyword(NativeNameToPython(isKeyword, name))
  {
  }

  /** The text a namespace contributes in front of a name. */
  function QualifierText(namespace: Option<string>): string {
    if namespace.Some? then namespace.value + "::" else ""
  }

  /** The split at the first `::` of a qualified name, when that is not at the
      very start: the namespace and the text after the `::`. */
  function SplitQualifiedName(cppQualName: string): (r: (Option<string>, string))
    ensures r.0.Some? <==> Find(cppQualName, "::") > 0
    ensures r.0.Some? ==> |r.0.value| > 0 && OccursAt(cppQualName, "::", |r.0.value|)
    ensures r.0.Some? ==> forall k :: 0 <= k < |r.0.value| ==> !OccursAt(cppQualName, "::", k)
    ensures cppQualName == QualifierText(r.0) + r.1
  {
    var cpos := Find(cppQualName, "::");
    if cpos > 0 then
      assert cppQualName == cppQualName[0..cpos] + "::" + cppQualName[cpos + 2..];
      (Some(cppQualName[0..cpos]), cppQualName[cpos + 2..])
    else
      (None, cppQualName)
  }

  /** Drop one trailing `*`. */
  function StripPointer(name: string): (r: string)
    ensures name == r + (if EndsWith(name, "*") then "*" else "")
  {
    if EndsWith(name, "*") then name[0..|name| - 1] else name
  }

  /** Split a C++ qualified name into its namespace (absent when there is no
      `::` after the first character) and its name, without one trailing `*`:
      the namespace, `::`, the name and the stripped `*` put back together give
      the qualified name again. */
  function ParseCppQualifiedName(cppQualName: string): (r: (Option<string>, string))
    ensures r.0 == SplitQualifiedName(cppQualName).0
    ensures cppQualName == QualifierText(r.0) + r.1 + (if EndsWith(cppQualName, "*") then "*" else "")
  {
    var split := SplitQualifiedName(cppQualName);
    var q := QualifierText(split.0);
    var name := StripPointer(split.1);
    var star: string := if EndsWith(split.1, "*") then "*" else "";
    assert |q| > 0 ==> q[|q| - 1] == ':';
    EndsWithTail(q, split.1, '*');
    assert EndsWith(cppQualName, "*") <==> EndsWith(split.1, "*");
    assert cppQualName == q + (name + star) == q + name + star;
    (split.0, name)
  }

  /** The index of the first return parameter, or the number of parameters when
      there is none (searching from `i`). */
  ghost function FirstReturnParaFrom(sig: Signature, i: nat): (r: nat)
    requires i <= NumParams(sig)
    decreases NumParams(sig) - i
    ensures i <= r <= NumParams(sig)
    ensures forall j :: i <= j < r ==> !SigIsReturnPara(sig, j)
    ensures r < NumParams(sig) ==> SigIsReturnPara(sig, r)
  {
    if i == NumParams(sig) then i
    else if SigIsReturnPara(sig, i) then i
    else FirstReturnParaFrom(sig, i + 1)
  }

  ghost function FirstReturnPara(sig: Signature): nat
  {
    FirstReturnParaFrom(sig, 0)
  }

  /** The native names of all parameters, in order. */
  method SigParameterNativeNames(sig: Signature) returns (names: seq<string>)
    ensures |names| == NumParams(sig)
    ensures forall i :: 0 <= i < |names| ==> names[i] == SigParaNativeName(sig, i)
  {
    names := [];
    for i := 0 to NumParams(sig)
      invariant |names| == i
      invariant forall j :: 0 <= j < i ==> names[j] == SigParaNativeName(sig, j)
    {
      names := names + [SigParaNativeName(sig, i)];
    }
  }

  /** The native names of the parameters before the first return parameter. */
  method SigInputParameterNativeNames(sig: Signature) returns (names: seq<string>)
    ensures |names| == FirstReturnPara(sig)
    ensures forall i :: 0 <= i < |names| ==> names[i] == SigParaNativeName(sig, i)
    ensures forall i :: 0 <= i < |names| ==> !SigIsReturnPara(sig, i)
    ensures |names| < NumParams(sig) ==> SigIsReturnPara(sig, |names|)
  {
    names := [];
    var i := 0;
    while i < NumParams(sig)
      invariant 0 <= i <= NumParams(sig)
      invariant |names| == i
      invariant forall j :: 0 <= j < i ==> names[j] == SigParaNativeName(sig, j)
      invariant FirstReturnParaFrom(sig, i) == FirstReturnPara(sig)
    {
      if SigIsReturnPara(sig, i) {
        break;
      }
      names := names + [SigParaNativeName(sig, i)];
      i := i + 1;
    }
  }

  /** The type written for parameter `i` in a code pointer type. */
  function ParamDeclType(sig: Signature, i: nat): string
    requires i < NumParams(sig)
  {
    var ptype := SigParaNativeCppType(sig, i);
    if SigIsReturnPara(sig, i) then PointerizeReturnParameterType(ptype) else ptype
  }

  /** `type name` for parameter `i`. */
  function ParamDecl(sig: Signature, i: nat): string
    requires i < NumParams(sig)
  {
    ParamDeclType(sig, i) + " " + SigParaNativeName(sig, i)
  }

  /** The declarations of the first `n` parameters. */
  ghost function ParamDecls(sig: Signature, n: nat): seq<string>
    requires n <= NumParams(sig)
  {
    seq(n, i requires 0 <= i < n => ParamDecl(sig, i))
  }

  /** `sep.join(parts)` */
  ghost function Join(sep: string, parts: seq<string>): string {
    if |parts| == 0 then ""
    else if |parts| == 1 then parts[0]
    else Join(sep, parts[..|parts| - 1]) + sep + parts[|parts| - 1]
  }

  /** `rtype (*) (type1 name1, type2 name2, ...)` */
  ghost function FunctionCodePointerType(sig: Signature): string
    requires ReturnTypeReadable(sig)
  {
    SigNativeCppReturnType(sig) + " (*) (" + Join(", ", ParamDecls(sig, NumParams(sig))) + ")"
  }

  /** Builds the native code pointer type of the function whose split C signature
      is `csig` (the library lookup that produces `csig` is not modelled). */
  method CreateStellaFunctionCodePointerType(csig: Signature) returns (defn: string)
    requires ReturnTypeReadable(csig)
    ensures defn == FunctionCodePointerType(csig)
  {
    defn := SigNativeCppReturnType(csig);
    defn := defn + " (*) (";
    ghost var head := defn;
    for i := 0 to NumParams(csig)
      invariant defn == head + Join(", ", ParamDecls(csig, i))
    {
      ghost var before := defn;
      if i > 0 {
        defn := defn + ", ";
      }
      var pname := SigParaNativeName(csig, i);
      var ptype := SigParaNativeCppType(csig, i);
      if SigIsReturnPara(csig, i) {
        ptype := PointerizeReturnParameterType(ptype);
      }
      defn := defn + ptype;
      defn := defn + " ";
      defn := defn + pname;
      WriteParameterStep(csig, i, head, before, ptype, pname);
    }
    defn := defn + ")";
  }

  /** One turn of the loop above: writing the separator, the type and the name of
      parameter `i` extends the joined declarations by one. */
  lemma WriteParameterStep(csig: Signature, i: nat, head: string, before: string, ptype: string, pname: string)
    requires i < NumParams(csig)
    requires before == head + Join(", ", ParamDecls(csig, i))
    requires ptype == ParamDeclType(csig, i) && pname == SigParaNativeName(csig, i)
    ensures (if i > 0 then before + ", " else before) + ptype + " " + pname ==
            head + Join(", ", ParamDecls(csig, i + 1))
  {
    JoinStep(csig, i);
  }

  /** Joining one more part adds a separator (unless it is the first part) and the part. */
  lemma JoinAppend(sep: string, parts: seq<string>, p: string)
    ensures Join(sep, parts + [p]) == Join(sep, parts) + ((if |parts| > 0 then sep else "") + p)
  {
    assert (parts + [p])[..|parts|] == parts;
  }

  /** Appending the declaration of parameter `i` to the joined list. */
  lemma JoinStep(sig: Signature, i: nat)
    requires i < NumParams(sig)
    ensures Join(", ", ParamDecls(sig, i + 1)) ==
      Join(", ", ParamDecls(sig, i)) + ((if i > 0 then ", " else "") + ParamDecl(sig, i))
  {
    assert ParamDecls(sig, i + 1) == ParamDecls(sig, i) + [ParamDecl(sig, i)];
    JoinAppend(", ", ParamDecls(sig, i), ParamDecl(sig, i));
  }

  /** A return parameter is declared with a pointer type of the same length as its
      C++ type: the reference `&` has become `*`. */
  lemma ReturnParameterIsPointer(sig: Signature, i: nat)
    requires i < NumParams(sig) && SigIsReturnPara(sig, i)
    ensures EndsWith(ParamDeclType(sig, i), "*") && !EndsWith(ParamDeclType(sig, i), "&")
    ensures |ParamDeclType(sig, i)| == |SigParaNativeCppType(sig, i)|
  {
    ParaNativeCppTypeMapsBooleans(sig, i);
  }

  /** An input parameter is declared with its C++ type unchanged. */
  lemma InputParameterKeepsType(sig: Signature, i: nat)
    requires i < NumParams(sig) && !SigIsReturnPara(sig, i)
    ensures ParamDeclType(sig, i) == SigParaNativeCppType(sig, i)
  {
  }

  /** The overall shape of a code pointer type, and its text for a function
      without parameters. */
  lemma CodePointerTypeShape(sig: Signature)
    requires ReturnTypeReadable(sig)
    ensures StartsWith(FunctionCodePointerType(sig), SigNativeCppReturnType(sig) + " (*) (")
    ensures EndsWith(FunctionCodePointerType(sig), ")")
    ensures NumParams(sig) == 0 ==>
      FunctionCodePointerType(sig) == SigNativeCppReturnType(sig) + " (*) ()"
  {
    var p := FunctionCodePointerType(sig);
    var head := SigNativeCppReturnType(sig) + " (*) (";
    var body := Join(", ", ParamDecls(sig, NumParams(sig)));
    assert p == head + (body + ")");
    assert p[..|head|] == head;
    assert p[|p| - 1..] == ")";
  }

  /** A boolean function with one boolean input and one integer return slot. */
  const EXAMPLE_SIGNATURE: Signature :=
    ["foo", "int", BOOLEAN_TYPE,
     "x", "int", BOOLEAN_TYPE,
     "_Return1", "int&", "/STELLA/@INTEGER"]

  /** The boolean input `x` is declared `bool x`. */
  lemma ExampleBooleanInput()
    ensures NumParams(EXAMPLE_SIGNATURE) == 2
    ensures ParamDecl(EXAMPLE_SIGNATURE, 0) == "bool x"
  {
    var sig := EXAMPLE_SIGNATURE;
    assert Replace("", "int", "bool") == "";
    assert Replace("int", "int", "bool") == "bool" + Replace("", "int", "bool");
    assert SigParaNativeCppType(sig, 0) == "bool";
    assert !SigIsReturnPara(sig, 0);
  }

  /** The return slot `_Return1` of type `int&` is declared `int* _Return1`. */
  lemma ExampleReturnSlot()
    ensures NumParams(EXAMPLE_SIGNATURE) == 2
    ensures ParamDecl(EXAMPLE_SIGNATURE, 1) == "int* _Return1"
  {
    var sig := EXAMPLE_SIGNATURE;
    assert "_Return1"[..7] == "_Return";
    assert "int&"[3..] == "&";
    assert SigIsReturnPara(sig, 1);
    assert "/STELLA/@INTEGER"[9] != BOOLEAN_TYPE[9];
    assert SigParaNativeCppType(sig, 1) == "int&";
    assert PointerizeReturnParameterType("int&") == "int*";
  }

  /** The two parameter declarations of the example. */
  lemma ExampleDeclarations()
    ensures NumParams(EXAMPLE_SIGNATURE) == 2
    ensures ParamDecls(EXAMPLE_SIGNATURE, 2) == ["bool x", "int* _Return1"]
  {
    ExampleBooleanInput();
    ExampleReturnSlot();
    TwoParamDecls(EXAMPLE_SIGNATURE);
  }

  /** The declarations of the first two parameters, as a list. */
  lemma TwoParamDecls(sig: Signature)
    requires 2 <= NumParams(sig)
    ensures ParamDecls(sig, 2) == [ParamDecl(sig, 0), ParamDecl(sig, 1)]
  {
  }

  /** Two declarations joined by `, `. */
  lemma ExampleJoin()
    ensures Join(", ", ["bool x", "int* _Return1"]) == "bool x, int* _Return1"
  {
    assert ["bool x", "int* _Return1"][..1] == ["bool x"];
  }

  /** The `int` return value of a STELLA boolean is shown as `bool`. */
  lemma ExampleReturnType()
    ensures SigNativeCppReturnType(EXAMPLE_SIGNATURE) == "bool"
  {
  }

  /** The pieces of the example's code pointer type put together. */
  lemma ExampleText()
    ensures "bool" + " (*) (" + "bool x, int* _Return1" + ")" == "bool (*) (bool x, int* _Return1)"
  {
  }

  /** The return type is mapped to `bool`, the boolean input to `bool`, and the
      return slot's reference becomes a pointer. */
  lemma CodePointerTypeExample()
    ensures FunctionCodePointerType(EXAMPLE_SIGNATURE) == "bool (*) (bool x, int* _Return1)"
  {
    ExampleDeclarations();
    ExampleJoin();
    ExampleReturnType();
    ExampleText();
  }

  /** One parameter's triple. */
  datatype Parameter = Parameter(nativeName: string, nativeType: string, stellaType: string)

  ghost function Triples(ps: seq<Parameter>): seq<string> {
    if ps == [] then []
    else [ps[0].nativeName, ps[0].nativeType, ps[0].stellaType] + Triples(ps[1..])
  }

  /** The signature list for a function name, its two return types and its parameters. */
  ghost function MakeSignature(name: string, rtype: string, srtype: string, ps: seq<Parameter>): Signature {
    [name, rtype, srtype] + Triples(ps)
  }

  /** The parameter triples of a signature, read through the accessors. */
  ghost function SigParameters(sig: Signature): (ps: seq<Parameter>)
    ensures |ps| == NumParams(sig)
  {
    seq(NumParams(sig), i requires 0 <= i < NumParams(sig) =>
      Parameter(SigParaNativeName(sig, i), SigParaNativeType(sig, i), SigParaStellaType(sig, i)))
  }

  lemma {:induction false} TriplesLayout(ps: seq<Parameter>)
    ensures |Triples(ps)| == 3 * |ps|
    ensures forall i :: 0 <= i < |ps| ==>
      Triples(ps)[3 * i] == ps[i].nativeName &&
      Triples(ps)[3 * i + 1] == ps[i].nativeType &&
      Triples(ps)[3 * i + 2] == ps[i].stellaType
  {
    if ps != [] {
      TriplesLayout(ps[1..]);
      var head := [ps[0].nativeName, ps[0].nativeType, ps[0].stellaType];
      forall i | 1 <= i < |ps|
        ensures Triples(ps)[3 * i] == ps[i].nativeName
        ensures Triples(ps)[3 * i + 1] == ps[i].nativeType
        ensures Triples(ps)[3 * i + 2] == ps[i].stellaType
      {
        assert ps[1..][i - 1] == ps[i];
        assert 3 * i == 3 + 3 * (i - 1);
      }
    }
  }

  /** The accessors read back exactly what a signature was built from. */
  lemma SignatureRoundTrip(name: string, rtype: string, srtype: string, ps: seq<Parameter>)
    ensures var sig := MakeSignature(name, rtype, srtype, ps);
      && WellFormed(sig) && SigArity(sig) == |ps|
      && SigFunctionName(sig) == name
      && SigNativeReturnType(sig) == rtype
      && SigStellaReturnType(sig) == srtype
      && SigParameters(sig) == ps
  {
    TriplesLayout(ps);
    var sig := MakeSignature(name, rtype, srtype, ps);
    assert |sig| == 3 * (|ps| + 1);
    forall i | 0 <= i < |ps|
      ensures SigParameters(sig)[i] == ps[i]
    {
      assert sig[(i + 1) * 3] == Triples(ps)[3 * i];
      assert sig[(i + 1) * 3 + 1] == Triples(ps)[3 * i + 1];
      assert sig[(i + 1) * 3 + 2] == Triples(ps)[3 * i + 2];
    }
  }

  /** Every well-formed signature is its header followed by its parameter triples:
      the accessors cover every element of the list. */
  lemma WellFormedSignatureDecomposes(sig: Signature)
    requires WellFormed(sig)
    ensures sig == MakeSignature(sig[0], sig[1], sig[2], SigParameters(sig))
  {
    var ps := SigParameters(sig);
    var m := MakeSignature(sig[0], sig[1], sig[2], ps);
    TriplesLayout(ps);
    assert |m| == |sig|;
    forall j | 3 <= j < |sig|
      ensures m[j] == sig[j]
    {
      var q, r := (j - 3) / 3, (j - 3) % 3;
      assert j == (q + 1) * 3 + r;
      assert q < |ps|;
      assert m[j] == Triples(ps)[3 * q + r];
      if r == 0 {
        assert m[j] == ps[q].nativeName == SigParaNativeName(sig, q);
      } else if r == 1 {
        assert m[j] == ps[q].nativeType == SigParaNativeType(sig, q);
      } else {
        assert m[j] == ps[q].stellaType == SigParaStellaType(sig, q);
      }
    }
  }
}
