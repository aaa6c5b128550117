# STELLA Python API signatures and the rank-1 float array

This project models two pieces of the STELLA system.

- **Signatures** (`signatures.dfy`, with the Python string operations it
  needs in `py_strings.dfy`). The Python API describes a compiled STELLA
  function by its *signature*: a flat list of strings. The list starts with
  the function's native name, its native return type and its STELLA return
  type. After that come one triple per parameter: native name, native type,
  STELLA type. The model covers:
  - the accessors and the arity computed from that list;
  - the test for a return parameter (`_Return…` with an `…&` reference type);
  - the mapping of `int` types that stand for STELLA booleans to C++ `bool`;
  - the lists of all parameter names and of the input parameter names;
  - the rewrite of a reference type to a pointer type;
  - how a native name is made safe for Python;
  - how a C++ qualified name is split into namespace and name;
  - how the C code pointer type of a function is built.
- **OneDFloatArrays** (`one_d_float_array.dfy`). `oneDFloatArray` is STELLA's
  rank-1 dense array of doubles. It is a class with a dimension and a buffer
  allocated from it. It offers a whole-array fill, indexed read and write,
  the flat address of an index, and its type tag.

The Python helpers are pure, so they are modelled as functions and lemmas.
The two loops that collect parameter names and the loop that writes the code
pointer type into a buffer are methods with loop invariants. Each method is
proved against a specification function. The Java class is a Dafny class
with the same two fields. Its allocator is a constructor, and its fill loop
runs over the buffer in place.

## Model

| member | source | states |
|---|---|---|
| PyStrings.FindFrom | python/stellapi/signatures.py:136 | the search from index `k` returns -1 or an occurrence at or after `k`, with no occurrence between `k` and the result |
| PyStrings.Find | python/stellapi/signatures.py:136 | `str.find` returns -1 when the pattern does not occur anywhere, and otherwise the index of its first occurrence |
| PyStrings.StartsWith | python/stellapi/signatures.py:85 | `s.startswith(p)` holds exactly when `p` is no longer than `s` and every character of `p` equals the character of `s` at the same position |
| PyStrings.EndsWith | python/stellapi/signatures.py:85 | `s.endswith(p)` holds exactly when `p` is no longer than `s` and every character of `p` equals the corresponding one among the last `len(p)` characters of `s` |
| PyStrings.Replace | python/stellapi/signatures.py:102 | `s.replace(pat, rep)` for a non-empty `pat`, scanning left to right without overlap: the result keeps the length of `s` when `rep` is as long as `pat`, never shrinks when `rep` is longer, and never grows when `rep` is shorter |
| PyStrings.ReplaceWithoutOccurrence | python/stellapi/signatures.py:102 | a string in which the pattern occurs nowhere comes back from `str.replace` unchanged |
| PyStrings.ReplaceAppendChar | python/stellapi/signatures.py:102 | a last character that does not occur in the pattern is carried through `str.replace` unchanged |
| PyStrings.ReplaceKeepsLastChar | python/stellapi/signatures.py:102 | `str.replace` keeps a trailing character that the pattern does not contain (such as the `&` of `int&`) |
| PyStrings.ReplaceIntLeavesNoInt | python/stellapi/signatures.py:102 | after replacing `int` by `bool` no occurrence of `int` is left at any position |
| Signatures.SigFunctionName | python/stellapi/signatures.py:68-69 | header field 0 of the list; `SignatureRoundTrip` proves it is the name a signature was built with |
| Signatures.SigNativeReturnType | python/stellapi/signatures.py:70-71 | header field 1; `SignatureRoundTrip` proves it is the native return type a signature was built with |
| Signatures.SigStellaReturnType | python/stellapi/signatures.py:72-73 | header field 2; `SignatureRoundTrip` proves it is the STELLA return type a signature was built with |
| Signatures.SigArity | python/stellapi/signatures.py:74-75 | `len(sig) // 3 - 1` is at least -1, is -1 for a list shorter than the header, and otherwise counts the complete parameter triples after the header: 3 × (arity + 1) ≤ length < 3 × (arity + 2) |
| Signatures.NumParams | python/stellapi/signatures.py:107 | the number of indices `range(arity)` visits; every one of them reads a complete parameter triple inside the list |
| Signatures.SigParaNativeName | python/stellapi/signatures.py:76-77 | field 0 of parameter triple `pi`; `SignatureRoundTrip` and `WellFormedSignatureDecomposes` prove it reads that parameter's native name |
| Signatures.SigParaNativeType | python/stellapi/signatures.py:78-79 | field 1 of parameter triple `pi`; the same two lemmas prove it reads that parameter's native type |
| Signatures.SigParaStellaType | python/stellapi/signatures.py:80-81 | field 2 of parameter triple `pi`; the same two lemmas prove it reads that parameter's STELLA type |
| Signatures.ArityCountsTriples | python/stellapi/signatures.py:74-75 | a signature is well formed exactly when its arity is non-negative and the header and triples fill the list: length = 3 × (arity + 1) |
| Signatures.SignatureRoundTrip | python/stellapi/signatures.py:68-81 | for a list built from a name, two return types and parameter triples, the accessors return exactly those parts, and the arity is the number of triples |
| Signatures.WellFormedSignatureDecomposes | python/stellapi/signatures.py:68-81 | every list whose length is a multiple of three, and at least three, is its header followed by the triples the accessors read, so the accessors see every element |
| Signatures.SigIsReturnPara | python/stellapi/signatures.py:82-85 | a parameter is a return parameter exactly when the first seven characters of its native name spell `_Return` and the last character of its native type is `&` |
| Signatures.SigNativeCppReturnType | python/stellapi/signatures.py:87-96 | the C++ return type is either `bool` or the native return type; the STELLA return type is read only for an `int` |
| Signatures.NativeCppReturnTypeMapsBooleans | python/stellapi/signatures.py:87-96 | the C++ return type differs from the native return type exactly when that is `int` and the STELLA return type is `/STELLA/@BOOLEAN` |
| Signatures.ExampleReturnType | python/stellapi/signatures.py:87-96 | an `int` return type whose STELLA type is boolean is shown as `bool` |
| Signatures.SigParaNativeCppType | python/stellapi/signatures.py:98-103 | the C++ parameter type is the native type or starts with `bool` |
| Signatures.ParaNativeCppTypeMapsBooleans | python/stellapi/signatures.py:98-103 | the type is changed exactly when it starts with `int` and its STELLA type is boolean; the changed type starts with `bool`, holds no `int`, and keeps a trailing `&` |
| Signatures.SigParameterNativeNames | python/stellapi/signatures.py:105-109 | returns one name per parameter below the arity, each equal to that parameter's native name, in order |
| Signatures.FirstReturnParaFrom | python/stellapi/signatures.py:111-117 | the first return parameter at or after `i`, or the arity when there is none; no parameter before it is a return parameter |
| Signatures.SigInputParameterNativeNames | python/stellapi/signatures.py:111-117 | returns the native names of the parameters before the first return parameter, in order; none of them is a return parameter, and the loop stopped early only at a return parameter |
| Signatures.PointerizeReturnParameterType | python/stellapi/signatures.py:120-125 | a type ending in `&` has it replaced by `*` with the rest unchanged; any other type is returned as is; the result has the same length and never ends in `&` |
| Signatures.PointerizeIdempotent | python/stellapi/signatures.py:120-125 | rewriting a second time changes nothing |
| Signatures.NativeNameToPython | python/stellapi/signatures.py:127-131 | a keyword gets one `_` appended; any other name is unchanged, so the result always starts with the name |
| Signatures.MangledNameIsNotKeyword | python/stellapi/signatures.py:127-131 | when no keyword ends in `_`, the result is never a keyword |
| Signatures.SplitQualifiedName | python/stellapi/signatures.py:133-140 | there is a namespace exactly when the first `::` is after index 0; the namespace is the non-empty text before that first `::`; namespace, `::` and name put together give the input back |
| Signatures.StripPointer | python/stellapi/signatures.py:141-142 | the name with its one trailing `*` dropped, if it has one, so that appending the `*` again gives the name back |
| Signatures.ParseCppQualifiedName | python/stellapi/signatures.py:133-143 | the namespace is the one found by the split at the first `::`; namespace, `::`, name and the stripped `*` put back together give the qualified name again |
| Signatures.CreateStellaFunctionCodePointerType | python/stellapi/signatures.py:215-233 | the text that is written is `rtype (*) (` followed by the parameter declarations joined by `, ` and then `)` |
| Signatures.WriteParameterStep | python/stellapi/signatures.py:222-231 | one turn of the parameter loop adds the separator (except before the first parameter), then the type, a space and the name of the next parameter |
| Signatures.JoinStep | python/stellapi/signatures.py:222-231 | joining the first `i + 1` declarations adds `, ` (except when `i` is 0) and declaration `i` to the join of the first `i` |
| Signatures.ReturnParameterIsPointer | python/stellapi/signatures.py:225-229 | a return parameter is declared with a pointer type ending in `*` and not `&`, as long as its C++ type |
| Signatures.InputParameterKeepsType | python/stellapi/signatures.py:225-229 | a parameter that is not a return parameter is declared with its C++ type unchanged |
| Signatures.CodePointerTypeShape | python/stellapi/signatures.py:218-233 | the code pointer type starts with the C++ return type and ` (*) (`, ends with `)`, and is `rtype (*) ()` for a function without parameters |
| Signatures.ExampleBooleanInput | python/stellapi/signatures.py:98-103 | an `int` parameter `x` whose STELLA type is boolean is declared `bool x` |
| Signatures.ExampleReturnSlot | python/stellapi/signatures.py:120-125 | the return slot `_Return1` of type `int&` is declared `int* _Return1` |
| Signatures.TwoParamDecls | python/stellapi/signatures.py:222-231 | the declarations of the first two parameters are those two declarations, in order |
| Signatures.CodePointerTypeExample | python/stellapi/signatures.py:215-233 | the boolean function `foo` with a boolean input `x` and an integer return slot gets the type `bool (*) (bool x, int* _Return1)` |
| OneDFloatArrays.OneDFloatArray.New1DFloatArray | native/java/stella/src/main/java/edu/isi/stella/oneDFloatArray.java:57-66 | the new array records the dimension and owns a fresh buffer of that many elements, all 0 |
| OneDFloatArrays.OneDFloatArray.TheArrayReader | native/java/stella/src/main/java/edu/isi/stella/oneDFloatArray.java:68-73 | returns the buffer itself (not a copy); in a valid array it is present and holds `length()` elements |
| OneDFloatArrays.OneDFloatArray.InitializeDimensionalArray | native/java/stella/src/main/java/edu/isi/stella/oneDFloatArray.java:75-80 | replaces the buffer by a fresh one of `length()` elements, all 0, leaving the dimension unchanged |
| OneDFloatArrays.OneDFloatArray.Length | native/java/stella/src/main/java/edu/isi/stella/oneDFloatArray.java:85-90 | always returns `dim1`, which in a valid array is the buffer's length |
| OneDFloatArrays.OneDFloatArray.InitializeArray | native/java/stella/src/main/java/edu/isi/stella/oneDFloatArray.java:95-111 | afterwards every one of the `dim1` elements is the initial value, in the same buffer |
| OneDFloatArrays.OneDFloatArray.OneDAref | native/java/stella/src/main/java/edu/isi/stella/oneDFloatArray.java:117-122 | returns the element at position `i` |
| OneDFloatArrays.OneDFloatArray.OneDArefSetter | native/java/stella/src/main/java/edu/isi/stella/oneDFloatArray.java:130-135 | returns the stored value; the element at `i` becomes `value`, every other element is unchanged, and the buffer stays the same |
| OneDFloatArrays.OneDFloatArray.OneDArefAddress | native/java/stella/src/main/java/edu/isi/stella/oneDFloatArray.java:142-147 | returns `i` itself for every `i`, with no bounds check; so the address of an in-bounds position is in bounds and reads the same element |
| OneDFloatArrays.OneDFloatArray.PrimaryType | native/java/stella/src/main/java/edu/isi/stella/oneDFloatArray.java:149-154 | every instance has the type tag of rank-1 float arrays |
| OneDFloatArrays.CreateFillRead | native/java/stella/src/main/java/edu/isi/stella/oneDFloatArray.java:57-122 | an array of five elements filled with 3.0 reads 3.0 at position 4, and position 5 is not within its length |

## Left out

- The library lookups that produce a signature and a code pointer are not
  modelled (`signatures.py:146-213`) because they are foreign calls.
  `CreateStellaFunctionCodePointerType` takes the split C signature `csig`
  as its argument instead of a qualified name.
- `getStellaFunctionTypedCode` (`signatures.py:235-248`) is not modelled
  because it only casts a foreign pointer with CFFI.
- `StringIO` is modelled as a string that each write appends to.
- Python's `keyword.iskeyword` is a parameter of `NativeNameToPython`
  (a `string -> bool` predicate), because its keyword list belongs to the
  Python runtime.
- An out-of-range index into the list raises `IndexError` in Python. In the
  model it is a precondition of the accessors instead.
  `SigNativeCppReturnType` and `SigParaNativeCppType` read the STELLA type
  only for an `int` type, and their preconditions demand its index only then.
- Python's negative indices are not modelled: a parameter index is a `nat`.
  The Python code only ever passes indices from `range(arity)`.
- `str.find` and `str.replace` are modelled only as far as this code uses them:
  `find` with a literal pattern, `replace` with a non-empty pattern.
- The Java exceptions become preconditions:
  - `new double[n]` with a negative `n` throws `NegativeArraySizeException`,
    so the constructor requires a non-negative dimension;
  - an out-of-range or null access throws, so the element accessors require a
    valid array and an in-bounds index.
- `dim1` and `theArray` are public fields in Java, so code outside the class
  can make the buffer's length differ from `dim1`. Java does not prevent
  this. In the model `Valid()` states the agreement, and the methods that
  rely on it require it; that code outside the class keeps `Valid()` is a
  convention, not something Java enforces.
- OneDFloatArrays.OneDFloatArray.InitializeArray: requires a valid array. The
  Java code would also run on a missing buffer of dimension 0, a state that
  only exists in the middle of the allocator.
- Java `double` is modelled as `real`: the fill and the element accesses only
  copy values, so no floating-point arithmetic is involved.
- The superclass `AbstractDimensionalArray` and STELLA's surrogate registry
  are not part of this model. `SGT_STELLA_1D_FLOAT_ARRAY` is a constant
  `Surrogate` value standing for the registered type tag.
