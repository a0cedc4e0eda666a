/** Typed accessors for config items (config/helpers.c).
    Each accessor `cs_subset_<kind>` runs the same cascade of guards over a
    config subset and a name: null arguments, inheritance lookup, base-type
    check, native getter error; on any failure it returns the sentinel of its
    kind, otherwise the native value cast to the kind's C type.

    The lookup `cs_subset_create_inheritance` and the getter
    `cs_subset_he_native_get` are modelled abstractly: a subset is a map from
    name to element, and the getter returns the element's stored native value.
 */
module ConfigHelpers {

  datatype Option<+T> = None | Some(value: T)

  // ---------------------------------------------------------------------------
  // Machine integers

  /** Range of `intptr_t` (and of `long`, the same width on LP64 platforms). */
  const IntPtrMin: int := -0x8000_0000_0000_0000
  const IntPtrMax: int := 0x7FFF_FFFF_FFFF_FFFF
  type IntPtr = x: int | IntPtrMin <= x <= IntPtrMax

  /** `INT_MIN` and `INT_MAX` of a 32-bit `int`; `INT_MIN` is the native
      getter's error signal. */
  const IntMin: IntPtr := -0x8000_0000
  const IntMax: int := 0x7FFF_FFFF

  /** The C conversion of an `intptr_t` to a 32-bit `int`: two's-complement
      wrap. The result is the one `int` congruent to `v` modulo 2^32. */
  function ToInt(v: int): (n: int)
    ensures IntMin <= n <= IntMax
    ensures (n - v) % 0x1_0000_0000 == 0
  {
    (v - IntMin) % 0x1_0000_0000 + IntMin
  }

  /** A value already in the `int` range survives the conversion unchanged. */
  lemma ToIntKeepsInts(v: int)
    requires IntMin <= v <= IntMax
    ensures ToInt(v) == v
  {
    assert 0 <= v - IntMin < 0x1_0000_0000;
  }

  /** Range of `short`. */
  const ShortMin: int := -0x8000
  const ShortMax: int := 0x7FFF

  /** The C conversion `(short) v`: two's-complement wrap to 16 bits.
      The result is the one value in the `short` range congruent to `v`. */
  function ToShort(v: int): (s: int)
    ensures ShortMin <= s <= ShortMax
    ensures (s - v) % 0x1_0000 == 0
  {
    (v - ShortMin) % 0x1_0000 + ShortMin
  }

  /** A value already in the `short` range survives the cast unchanged. */
  lemma ToShortKeepsShorts(v: int)
    requires ShortMin <= v <= ShortMax
    ensures ToShort(v) == v
  {
    assert 0 <= v - ShortMin < 0x1_0000;
  }

  // ---------------------------------------------------------------------------
  // Opaque references

  /** A non-null object pointer, identified by its address bits. */
  datatype Ref = Ref(addr: int)

  /** The bits a (possibly null) pointer carries. */
  function PointerBits(p: Option<Ref>): int {
    match p
    case None => 0
    case Some(r) => r.addr
  }

  /** The C conversion `(const T *) value`: zero is the null pointer, any other
      value is a reference carrying exactly those bits. */
  function AsPointer(v: int): (p: Option<Ref>)
    ensures PointerBits(p) == v
    ensures p.None? <==> v == 0
  {
    if v == 0 then None else Some(Ref(v))
  }

  // ---------------------------------------------------------------------------
  // Quad options

  /** `enum QuadOption`, whose underlying type is `int` (it has a negative
      enumerator). `QuadUnnamed` is an enum value none of whose named
      enumerators has its code, the result of casting another `int`. */
  datatype QuadOption =
    | MuttAbort
    | MuttNo
    | MuttYes
    | MuttAskNo
    | MuttAskYes
    | QuadUnnamed(code: int)

  const AbortCode: int := -1
  const NoCode: int := 0
  const YesCode: int := 1
  const AskNoCode: int := 2
  const AskYesCode: int := 3

  predicate IsNamedCode(v: int) {
    v == AbortCode || v == NoCode || v == YesCode || v == AskNoCode || v == AskYesCode
  }

  /** A well-formed quad value: an unnamed value never uses a named code. */
  predicate QuadWellFormed(q: QuadOption) {
    q.QuadUnnamed? ==> !IsNamedCode(q.code)
  }

  /** The integer an enum value is represented by. */
  function QuadCode(q: QuadOption): int {
    match q
    case MuttAbort => AbortCode
    case MuttNo => NoCode
    case MuttYes => YesCode
    case MuttAskNo => AskNoCode
    case MuttAskYes => AskYesCode
    case QuadUnnamed(c) => c
  }

  /** The enum value represented by the `int` `v`. */
  function QuadOf(v: int): (q: QuadOption)
    ensures QuadWellFormed(q)
    ensures QuadCode(q) == v
  {
    if v == AbortCode then MuttAbort
    else if v == NoCode then MuttNo
    else if v == YesCode then MuttYes
    else if v == AskNoCode then MuttAskNo
    else if v == AskYesCode then MuttAskYes
    else QuadUnnamed(v)
  }

  /** Casting an enum value's code back gives the same enum value. */
  lemma QuadOfCode(q: QuadOption)
    requires QuadWellFormed(q)
    ensures QuadOf(QuadCode(q)) == q
  {
    match q
    case QuadUnnamed(c) =>
      assert !IsNamedCode(c);
    case _ =>
  }

  // ---------------------------------------------------------------------------
  // Config subsets and their elements

  /** Base types of config items (`DT_*`); `DtOther` stands for every base
      type that has no accessor in config/helpers.c. */
  datatype DataType =
    | DtAddress
    | DtBool
    | DtLong
    | DtNumber
    | DtQuad
    | DtRegex
    | DtSlist
    | DtString
    | DtOther(code: nat)

  /** A `HashElem` type field: a base type plus flag bits. */
  datatype TypeTag = TypeTag(base: DataType, flags: nat)

  /** `DTYPE(t)`: the base type of a tag, whatever its flags. The contract is
      the definition of this abstraction, not a proved property. */
  function DType(t: TypeTag): (dt: DataType)
    ensures dt == t.base
  {
    t.base
  }

  /** A `HashElem`: its type tag and the native value its getter yields. */
  datatype HashElem = HashElem(typ: TypeTag, native: IntPtr)

  /** A `ConfigSubset`, seen through its inheritance lookup. */
  datatype ConfigSubset = ConfigSubset(items: map<string, HashElem>)

  /** `cs_subset_create_inheritance(sub, name)`: the element for `name`, if any.
      The contract is the definition of this abstraction, not a proved property. */
  function CreateInheritance(sub: ConfigSubset, name: string): (he: Option<HashElem>)
    ensures he.None? <==> name !in sub.items
    ensures he.Some? ==> he.value == sub.items[name]
  {
    if name in sub.items then Some(sub.items[name]) else None
  }

  /** `cs_subset_he_native_get(sub, he, err)`: the native value, `IntMin` on error.
      The contract is the definition of this abstraction, not a proved property. */
  function NativeGet(sub: ConfigSubset, he: HashElem): (v: IntPtr)
    ensures v == he.native
  {
    he.native
  }

  /** Both arguments are present and the lookup resolves the name. */
  predicate Found(sub: Option<ConfigSubset>, name: Option<string>) {
    sub.Some? && name.Some? && CreateInheritance(sub.value, name.value).Some?
  }

  /** The element the lookup resolves. */
  function Elem(sub: Option<ConfigSubset>, name: Option<string>): HashElem
    requires Found(sub, name)
  {
    CreateInheritance(sub.value, name.value).value
  }

  /** The native value the getter yields for the resolved element. */
  function Native(sub: Option<ConfigSubset>, name: Option<string>): IntPtr
    requires Found(sub, name)
  {
    NativeGet(sub.value, Elem(sub, name))
  }

  /** An accessor for base type `dt` passes every guard: the element exists,
      its base type is `dt` and the getter does not signal an error. */
  predicate Reaches(sub: Option<ConfigSubset>, name: Option<string>, dt: DataType) {
    Found(sub, name) && DType(Elem(sub, name).typ) == dt && Native(sub, name) != IntMin
  }

  // ---------------------------------------------------------------------------
  // The shared guard cascade

  /** The guard that stopped an accessor, in the order they are tested. */
  datatype Failure = NullArgument | NoElement | TypeMismatch | GetterError

  datatype Fetch = Fail(reason: Failure) | Value(native: IntPtr)

  /** The cascade every accessor runs before its final cast. */
  function FetchNative(sub: Option<ConfigSubset>, name: Option<string>, dt: DataType): (r: Fetch)
    ensures r == Fail(NullArgument) <==> sub.None? || name.None?
    ensures r == Fail(NoElement) <==> sub.Some? && name.Some? && !Found(sub, name)
    ensures r == Fail(TypeMismatch) <==> Found(sub, name) && DType(Elem(sub, name).typ) != dt
    ensures r == Fail(GetterError) <==>
              Found(sub, name) && DType(Elem(sub, name).typ) == dt && Native(sub, name) == IntMin
    ensures r.Value? <==> Reaches(sub, name, dt)
    ensures r.Value? ==> r.native == Native(sub, name) && r.native != IntMin
  {
    if sub.None? || name.None? then Fail(NullArgument)
    else
      var he := CreateInheritance(sub.value, name.value);
      if he.None? then Fail(NoElement)
      else if DType(he.value.typ) != dt then Fail(TypeMismatch)
      else
        var value := NativeGet(sub.value, he.value);
        if value == IntMin then Fail(GetterError) else Value(value)
  }

  // ---------------------------------------------------------------------------
  // The eight accessors

  /** `cs_subset_address`: the stored Address reference; NULL for an empty
      address (native 0) and on any failure. */
  function SubsetAddress(sub: Option<ConfigSubset>, name: Option<string>): (r: Option<Ref>)
    ensures r.None? <==> !Reaches(sub, name, DtAddress) || Native(sub, name) == 0
    ensures r.Some? ==> Reaches(sub, name, DtAddress) && r.value.addr == Native(sub, name)
  {
    match FetchNative(sub, name, DtAddress)
    case Fail(_) => None
    case Value(v) => AsPointer(v)
  }

  /** `cs_subset_bool`: true exactly when a Bool item's native value is non-zero. */
  function SubsetBool(sub: Option<ConfigSubset>, name: Option<string>): (r: bool)
    ensures r <==> Reaches(sub, name, DtBool) && Native(sub, name) != 0
  {
    match FetchNative(sub, name, DtBool)
    case Fail(_) => false
    case Value(v) => v != 0
  }

  /** `cs_subset_long`: the native value of a Long item, 0 on any failure;
      never `INT_MIN`, the getter's error signal. */
  function SubsetLong(sub: Option<ConfigSubset>, name: Option<string>): (r: IntPtr)
    ensures r != IntMin
    ensures !Reaches(sub, name, DtLong) ==> r == 0
    ensures Reaches(sub, name, DtLong) ==> r == Native(sub, name)
  {
    match FetchNative(sub, name, DtLong)
    case Fail(_) => 0
    case Value(v) => v
  }

  /** `cs_subset_number`: the native value of a Number item truncated to a
      `short`, 0 on any failure. */
  function SubsetNumber(sub: Option<ConfigSubset>, name: Option<string>): (r: int)
    ensures ShortMin <= r <= ShortMax
    ensures !Reaches(sub, name, DtNumber) ==> r == 0
    ensures Reaches(sub, name, DtNumber) ==> (r - Native(sub, name)) % 0x1_0000 == 0
  {
    match FetchNative(sub, name, DtNumber)
    case Fail(_) => 0
    case Value(v) => ToShort(v)
  }

  /** `cs_subset_quad`: the enum value whose code is the native value of a
      Quad item narrowed to the enum's `int`, `MUTT_ABORT` on every failure. */
  function SubsetQuad(sub: Option<ConfigSubset>, name: Option<string>): (r: QuadOption)
    ensures QuadWellFormed(r) && IntMin <= QuadCode(r) <= IntMax
    ensures !Reaches(sub, name, DtQuad) ==> r == MuttAbort
    ensures Reaches(sub, name, DtQuad) ==> (QuadCode(r) - Native(sub, name)) % 0x1_0000_0000 == 0
  {
    match FetchNative(sub, name, DtQuad)
    case Fail(_) => MuttAbort
    case Value(v) => QuadOf(ToInt(v))
  }

  /** `cs_subset_regex`: the stored Regex reference; NULL for an empty regex
      (native 0) and on any failure. */
  function SubsetRegex(sub: Option<ConfigSubset>, name: Option<string>): (r: Option<Ref>)
    ensures r.None? <==> !Reaches(sub, name, DtRegex) || Native(sub, name) == 0
    ensures r.Some? ==> Reaches(sub, name, DtRegex) && r.value.addr == Native(sub, name)
  {
    match FetchNative(sub, name, DtRegex)
    case Fail(_) => None
    case Value(v) => AsPointer(v)
  }

  /** `cs_subset_slist`: the stored Slist reference; NULL for an empty string
      list (native 0) and on any failure. */
  function SubsetSlist(sub: Option<ConfigSubset>, name: Option<string>): (r: Option<Ref>)
    ensures r.None? <==> !Reaches(sub, name, DtSlist) || Native(sub, name) == 0
    ensures r.Some? ==> Reaches(sub, name, DtSlist) && r.value.addr == Native(sub, name)
  {
    match FetchNative(sub, name, DtSlist)
    case Fail(_) => None
    case Value(v) => AsPointer(v)
  }

  /** `cs_subset_string`: the stored string reference; NULL for an empty
      string (native 0) and on any failure. */
  function SubsetString(sub: Option<ConfigSubset>, name: Option<string>): (r: Option<Ref>)
    ensures r.None? <==> !Reaches(sub, name, DtString) || Native(sub, name) == 0
    ensures r.Some? ==> Reaches(sub, name, DtString) && r.value.addr == Native(sub, name)
  {
    match FetchNative(sub, name, DtString)
    case Fail(_) => None
    case Value(v) => AsPointer(v)
  }

  /** The quad accessor narrows the 64-bit native value to the enum's `int`:
      a stored 0x1_0000_0001 reads back as `MUTT_YES`. */
  lemma QuadNarrowsToInt(sub: Option<ConfigSubset>, name: Option<string>)
    requires Found(sub, name) && DType(Elem(sub, name).typ) == DtQuad
    requires Native(sub, name) == 0x1_0000_0001
    ensures SubsetQuad(sub, name) == MuttYes
  {
    assert ToInt(0x1_0000_0001) == YesCode;
  }

  // ---------------------------------------------------------------------------
  // All accessors through one generic guarded get

  /** The eight accessor kinds. */
  datatype Kind = Address | Bool | Long | Number | Quad | Regex | Slist | String

  /** The `DT_*` base type each accessor checks for. */
  function TypeOf(k: Kind): DataType {
    match k
    case Address => DtAddress
    case Bool => DtBool
    case Long => DtLong
    case Number => DtNumber
    case Quad => DtQuad
    case Regex => DtRegex
    case Slist => DtSlist
    case String => DtString
  }

  /** An accessor result of any kind. */
  datatype Result =
    | PointerResult(ptr: Option<Ref>)
    | BoolResult(b: bool)
    | IntResult(n: int)
    | QuadResult(q: QuadOption)

  /** Each kind's error sentinel: NULL, false, 0 or `MUTT_ABORT`. */
  function Sentinel(k: Kind): Result {
    match k
    case Bool => BoolResult(false)
    case Long | Number => IntResult(0)
    case Quad => QuadResult(MuttAbort)
    case Address | Regex | Slist | String => PointerResult(None)
  }

  /** Each kind's final cast of the native value. */
  function Cast(k: Kind, v: IntPtr): Result {
    match k
    case Bool => BoolResult(v != 0)
    case Long => IntResult(v)
    case Number => IntResult(ToShort(v))
    case Quad => QuadResult(QuadOf(ToInt(v)))
    case Address | Regex | Slist | String => PointerResult(AsPointer(v))
  }

  /** The generic guarded get: sentinel on any failed guard, cast otherwise. */
  function GuardedGet(k: Kind, sub: Option<ConfigSubset>, name: Option<string>): Result {
    match FetchNative(sub, name, TypeOf(k))
    case Fail(_) => Sentinel(k)
    case Value(v) => Cast(k, v)
  }

  /** Calls the accessor of kind `k`. */
  function Get(k: Kind, sub: Option<ConfigSubset>, name: Option<string>): Result {
    match k
    case Address => PointerResult(SubsetAddress(sub, name))
    case Bool => BoolResult(SubsetBool(sub, name))
    case Long => IntResult(SubsetLong(sub, name))
    case Number => IntResult(SubsetNumber(sub, name))
    case Quad => QuadResult(SubsetQuad(sub, name))
    case Regex => PointerResult(SubsetRegex(sub, name))
    case Slist => PointerResult(SubsetSlist(sub, name))
    case String => PointerResult(SubsetString(sub, name))
  }

  /** Every accessor is an instance of the generic guarded get. */
  lemma AccessorIsGuardedGet(k: Kind, sub: Option<ConfigSubset>, name: Option<string>)
    ensures Get(k, sub, name) == GuardedGet(k, sub, name)
    ensures Get(k, sub, name) ==
              if Reaches(sub, name, TypeOf(k)) then Cast(k, Native(sub, name)) else Sentinel(k)
  {
  }

  /** A null subset or null name yields the sentinel, before any lookup. */
  lemma NullArgumentGivesSentinel(k: Kind, sub: Option<ConfigSubset>, name: Option<string>)
    requires sub.None? || name.None?
    ensures FetchNative(sub, name, TypeOf(k)) == Fail(NullArgument)
    ensures Get(k, sub, name) == Sentinel(k)
  {
    AccessorIsGuardedGet(k, sub, name);
  }

  /** A name the lookup does not resolve yields the sentinel. */
  lemma MissingElementGivesSentinel(k: Kind, sub: ConfigSubset, name: string)
    requires CreateInheritance(sub, name).None?
    ensures Get(k, Some(sub), Some(name)) == Sentinel(k)
  {
    AccessorIsGuardedGet(k, Some(sub), Some(name));
  }

  /** An element of another base type yields the sentinel, never its value,
      whatever that value is. */
  lemma TypeMismatchGivesSentinel(k: Kind, sub: ConfigSubset, name: string)
    requires CreateInheritance(sub, name).Some?
    requires DType(CreateInheritance(sub, name).value.typ) != TypeOf(k)
    ensures Get(k, Some(sub), Some(name)) == Sentinel(k)
  {
    AccessorIsGuardedGet(k, Some(sub), Some(name));
  }

  /** A getter result of `INT_MIN` yields the sentinel. */
  lemma GetterErrorGivesSentinel(k: Kind, sub: ConfigSubset, name: string)
    requires CreateInheritance(sub, name).Some?
    requires NativeGet(sub, CreateInheritance(sub, name).value) == IntMin
    ensures Get(k, Some(sub), Some(name)) == Sentinel(k)
  {
    AccessorIsGuardedGet(k, Some(sub), Some(name));
  }

  /** For any element at most one accessor reaches its success path: the one
      whose base type is the element's. */
  lemma AtMostOneAccessorSucceeds(sub: Option<ConfigSubset>, name: Option<string>, k1: Kind, k2: Kind)
    requires Reaches(sub, name, TypeOf(k1)) && Reaches(sub, name, TypeOf(k2))
    ensures k1 == k2
    ensures TypeOf(k1) == DType(Elem(sub, name).typ)
  {
  }

  /** An accessor's result depends only on the resolved element's base type
      and native value: not on the subset, the name or the flag bits. */
  lemma DependsOnlyOnElement(k: Kind, sub1: Option<ConfigSubset>, name1: Option<string>,
                             sub2: Option<ConfigSubset>, name2: Option<string>)
    requires Found(sub1, name1) && Found(sub2, name2)
    requires DType(Elem(sub1, name1).typ) == DType(Elem(sub2, name2).typ)
    requires Native(sub1, name1) == Native(sub2, name2)
    ensures Get(k, sub1, name1) == Get(k, sub2, name2)
  {
    AccessorIsGuardedGet(k, sub1, name1);
    AccessorIsGuardedGet(k, sub2, name2);
  }

  /** The sentinel is also a legitimate value of every kind: a caller cannot
      tell "empty" or "false" or "0" or "abort" from an error. */
  lemma SentinelIsAmbiguous(k: Kind)
    ensures exists v: IntPtr :: v != IntMin && Cast(k, v) == Sentinel(k)
  {
    var v: IntPtr := if k == Quad then AbortCode else 0;
    ToIntKeepsInts(v);
    assert Cast(k, v) == Sentinel(k);
  }
}
