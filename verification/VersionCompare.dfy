/** Version ordering: precedence of section 11 of Semantic Versioning 2.0.0 with
    the parser library's tie-break on build metadata, the lexical fallback, the
    highest version of a list, and sorting. */
module VersionCompare {
  import opened Common
  import Sorting

  datatype Ident = Numeric(n: nat) | Alpha(s: string)
  datatype Version = Version(major: nat, minor: nat, patch: nat, pre: seq<Ident>, build: string)

  // ---- orders -------------------------------------------------------------

  /** A total order: a total preorder in which equal means the same. */
  ghost predicate TotalOrder<T(!new)>(le: (T, T) -> bool) {
    Sorting.TotalPreorder(le) && forall a, b :: le(a, b) && le(b, a) ==> a == b
  }

  /** Dictionary order: by the first element that differs, a prefix first. */
  function LexLe<T(==)>(le: (T, T) -> bool, a: seq<T>, b: seq<T>): bool {
    if a == [] then true
    else if b == [] then false
    else if a[0] == b[0] then LexLe(le, a[1..], b[1..])
    else le(a[0], b[0])
  }

  lemma {:induction false} LexTotal<T(!new)>(le: (T, T) -> bool, a: seq<T>, b: seq<T>)
    requires TotalOrder(le)
    ensures LexLe(le, a, b) || LexLe(le, b, a)
    ensures LexLe(le, a, b) && LexLe(le, b, a) ==> a == b
  {
    if a != [] && b != [] && a[0] == b[0] {
      LexTotal(le, a[1..], b[1..]);
      assert a == [a[0]] + a[1..] && b == [b[0]] + b[1..];
    }
  }

  lemma {:induction false} LexTransitive<T(!new)>(le: (T, T) -> bool, a: seq<T>, b: seq<T>, c: seq<T>)
    requires TotalOrder(le) && LexLe(le, a, b) && LexLe(le, b, c)
    ensures LexLe(le, a, c)
  {
    if a != [] && a[0] == b[0] == c[0] {
      LexTransitive(le, a[1..], b[1..], c[1..]);
    }
  }

  lemma LexOrder<T(!new)>(le: (T, T) -> bool)
    requires TotalOrder(le)
    ensures forall a, b :: LexLe(le, a, b) || LexLe(le, b, a)
    ensures forall a, b :: LexLe(le, a, b) && LexLe(le, b, a) ==> a == b
    ensures forall a, b, c :: LexLe(le, a, b) && LexLe(le, b, c) ==> LexLe(le, a, c)
  {
    forall a, b ensures (LexLe(le, a, b) || LexLe(le, b, a)) && (LexLe(le, a, b) && LexLe(le, b, a) ==> a == b) {
      LexTotal(le, a, b);
    }
    forall a, b, c | LexLe(le, a, b) && LexLe(le, b, c) ensures LexLe(le, a, c) {
      LexTransitive(le, a, b, c);
    }
  }

  function CharLe(a: char, b: char): bool { a <= b }
  function NatLe(a: nat, b: nat): bool { a <= b }
  function TextLe(a: string, b: string): bool { LexLe(CharLe, a, b) }

  lemma TextOrder()
    ensures TotalOrder(TextLe)
  {
    assert TotalOrder(CharLe);
    LexOrder(CharLe);
  }

  /** Numeric identifiers by value and below alphanumeric ones, these as text. */
  function IdentLe(a: Ident, b: Ident): bool {
    match (a, b)
    case (Numeric(m), Numeric(n)) => m <= n
    case (Numeric(_), Alpha(_)) => true
    case (Alpha(_), Numeric(_)) => false
    case (Alpha(s), Alpha(t)) => TextLe(s, t)
  }

  lemma IdentOrder()
    ensures TotalOrder(IdentLe)
  {
    TextOrder();
  }

  // ---- versions -----------------------------------------------------------

  function Core(v: Version): seq<nat> { [v.major, v.minor, v.patch] }

  /** No pre-release ranks above every pre-release. */
  function PreLe(a: seq<Ident>, b: seq<Ident>): bool {
    b == [] || (a != [] && LexLe(IdentLe, a, b))
  }

  /** Precedence: core numbers, then the pre-release; build does not count. */
  function PrecedenceLe(a: Version, b: Version): bool {
    if Core(a) != Core(b) then LexLe(NatLe, Core(a), Core(b)) else PreLe(a.pre, b.pre)
  }

  predicate SamePrecedence(a: Version, b: Version) {
    Core(a) == Core(b) && a.pre == b.pre
  }

  lemma PrecedenceOrder(a: Version, b: Version, c: Version)
    ensures PrecedenceLe(a, b) || PrecedenceLe(b, a)
    ensures PrecedenceLe(a, b) && PrecedenceLe(b, a) <==> SamePrecedence(a, b)
    ensures PrecedenceLe(a, b) && PrecedenceLe(b, c) ==> PrecedenceLe(a, c)
  {
    assert TotalOrder(NatLe);
    IdentOrder();
    LexTotal(NatLe, Core(a), Core(b));
    LexTotal(IdentLe, a.pre, b.pre);
    if PrecedenceLe(a, b) && PrecedenceLe(b, c) {
      LexTotal(NatLe, Core(a), Core(c));
      LexTotal(NatLe, Core(b), Core(c));
      if LexLe(NatLe, Core(a), Core(b)) && LexLe(NatLe, Core(b), Core(c)) {
        LexTransitive(NatLe, Core(a), Core(b), Core(c));
      }
      if LexLe(IdentLe, a.pre, b.pre) && LexLe(IdentLe, b.pre, c.pre) {
        LexTransitive(IdentLe, a.pre, b.pre, c.pre);
      }
    }
  }

  // ---- precedence, rule by rule -------------------------------------------

  /** The first difference at position `k` puts `a` first: `b` goes on where `a`
      ends, or has the greater element there. */
  ghost predicate DiffersAt<T(!new)>(less: (T, T) -> bool, a: seq<T>, b: seq<T>, k: int) {
    && 0 <= k <= |a| && k < |b| && a[..k] == b[..k] && (k == |a| || less(a[k], b[k]))
  }

  predicate CharBelow(a: char, b: char) { a < b }

  ghost predicate TextBelow(a: string, b: string) {
    exists k :: DiffersAt(CharBelow, a, b, k)
  }

  /** Numeric identifiers compare by value, alphanumeric ones character by
      character, and a numeric one is below an alphanumeric one. */
  ghost predicate IdentBelow(a: Ident, b: Ident) {
    || (a.Numeric? && b.Numeric? && a.n < b.n)
    || (a.Numeric? && b.Alpha?)
    || (a.Alpha? && b.Alpha? && TextBelow(a.s, b.s))
  }

  /** A pre-release is below the release; of two, the first identifier that
      differs decides, and a proper prefix is below. */
  ghost predicate PreBelow(a: seq<Ident>, b: seq<Ident>) {
    a != [] && (b == [] || exists k :: DiffersAt(IdentBelow, a, b, k))
  }

  /** Major, minor and patch numbers in this order, then the pre-release. */
  ghost predicate Below(a: Version, b: Version) {
    || a.major < b.major
    || (a.major == b.major && a.minor < b.minor)
    || (a.major == b.major && a.minor == b.minor && a.patch < b.patch)
    || (a.major == b.major && a.minor == b.minor && a.patch == b.patch && PreBelow(a.pre, b.pre))
  }

  /** What `less` has to do with `le`. */
  ghost predicate StrictOf<T(!new)>(less: (T, T) -> bool, le: (T, T) -> bool) {
    forall a, b :: less(a, b) <==> !le(b, a)
  }

  lemma {:induction false} LexStrict<T(!new)>(le: (T, T) -> bool, less: (T, T) -> bool, a: seq<T>, b: seq<T>)
    requires TotalOrder(le) && StrictOf(less, le)
    ensures !LexLe(le, b, a) <==> exists k :: DiffersAt(less, a, b, k)
  {
    if b == [] {
    } else if a == [] {
      assert DiffersAt(less, a, b, 0);
    } else if a[0] == b[0] {
      LexStrict(le, less, a[1..], b[1..]);
      LaterDifference(less, a, b);
    } else {
      if less(a[0], b[0]) { assert DiffersAt(less, a, b, 0); }
      forall k | DiffersAt(less, a, b, k) ensures less(a[0], b[0]) {
        if k > 0 { assert a[..k][0] == b[..k][0]; }
      }
    }
  }

  lemma LaterDifference<T(!new)>(less: (T, T) -> bool, a: seq<T>, b: seq<T>)
    requires a != [] && b != [] && a[0] == b[0] && !less(a[0], b[0])
    ensures (exists k :: DiffersAt(less, a, b, k)) <==> exists k :: DiffersAt(less, a[1..], b[1..], k)
  {
    if k :| DiffersAt(less, a, b, k) {
      assert k > 0;
      assert a[1..][..k - 1] == a[..k][1..] && b[1..][..k - 1] == b[..k][1..];
      assert DiffersAt(less, a[1..], b[1..], k - 1);
    }
    if k :| DiffersAt(less, a[1..], b[1..], k) {
      assert a[..k + 1] == [a[0]] + a[1..][..k] && b[..k + 1] == [b[0]] + b[1..][..k];
      assert DiffersAt(less, a, b, k + 1);
    }
  }

  /** Text falls back to the order of its characters. */
  lemma TextExact(a: string, b: string)
    ensures !TextLe(b, a) <==> TextBelow(a, b)
  {
    assert TotalOrder(CharLe);
    assert StrictOf(CharBelow, CharLe);
    LexStrict(CharLe, CharBelow, a, b);
  }

  lemma IdentExact(a: Ident, b: Ident)
    ensures !IdentLe(b, a) <==> IdentBelow(a, b)
  {
    if a.Alpha? && b.Alpha? { TextExact(a.s, b.s); }
  }

  lemma PreExact(a: seq<Ident>, b: seq<Ident>)
    ensures !PreLe(b, a) <==> PreBelow(a, b)
  {
    IdentOrder();
    forall x, y ensures IdentBelow(x, y) <==> !IdentLe(y, x) { IdentExact(x, y); }
    LexStrict(IdentLe, IdentBelow, a, b);
  }

  lemma CoreExact(a: Version, b: Version)
    ensures Core(a) == Core(b) <==> a.major == b.major && a.minor == b.minor && a.patch == b.patch
    ensures Core(a) != Core(b) ==> (!LexLe(NatLe, Core(b), Core(a)) <==>
      a.major < b.major || (a.major == b.major && (a.minor < b.minor || (a.minor == b.minor && a.patch < b.patch))))
  {
    var s, t := Core(a), Core(b);
    assert s[0] == a.major && s[1..][0] == a.minor && s[1..][1..][0] == a.patch;
    assert t[0] == b.major && t[1..][0] == b.minor && t[1..][1..][0] == b.patch;
    assert LexLe(NatLe, t[1..], s[1..]) ==
      if b.minor == a.minor then LexLe(NatLe, t[1..][1..], s[1..][1..]) else b.minor <= a.minor;
  }

  /** The order the code uses is the order of the rules. */
  lemma PrecedenceExact(a: Version, b: Version)
    ensures !PrecedenceLe(b, a) <==> Below(a, b)
    ensures SamePrecedence(a, b) <==> a.major == b.major && a.minor == b.minor && a.patch == b.patch && a.pre == b.pre
  {
    CoreExact(a, b);
    PreExact(a.pre, b.pre);
  }

  // ---- lenient parsing ----------------------------------------------------

  predicate IsSpace(c: char) {
    || '\t' <= c <= '\r' || c == ' ' || c == '\U{85}' || c == '\U{A0}' || c == '\U{1680}'
    || '\U{2000}' <= c <= '\U{200A}' || c == '\U{2028}' || c == '\U{2029}' || c == '\U{202F}' || c == '\U{205F}' || c == '\U{3000}'
  }

  function Trimmed(s: string): string
    decreases |s|
  {
    if s != "" && IsSpace(s[0]) then Trimmed(s[1..])
    else if s != "" && IsSpace(s[|s| - 1]) then Trimmed(s[..|s| - 1])
    else s
  }

  function Unprefixed(s: string): string {
    if s != "" && (s[0] == 'v' || s[0] == 'V') then s[1..] else s
  }

  /** Up to the first hyphen or plus sign. */
  function CoreText(s: string): string {
    if s == "" || s[0] == '-' || s[0] == '+' then "" else [s[0]] + CoreText(s[1..])
  }

  function Dots(s: string): nat {
    if s == "" then 0 else (if s[0] == '.' then 1 else 0) + Dots(s[1..])
  }

  /** The missing numbers are put at the very end. */
  function Filled(s: string): string {
    s + (if Dots(CoreText(s)) == 0 then ".0.0" else if Dots(CoreText(s)) == 1 then ".0" else "")
  }

  function TryParse(strict: string -> Option<Version>, raw: string): Option<Version> {
    var s := Unprefixed(Trimmed(raw));
    if s == "" then None else strict(Filled(s))
  }

  /** A version in full has three numbers, as section 2 of Semantic Versioning
      2.0.0 demands. */
  ghost predicate ThreeNumbers(strict: string -> Option<Version>) {
    forall s :: strict(s).Some? ==> Dots(CoreText(s)) == 2
  }

  /** The parser the comparison uses, and how two versions of equal precedence are
      told apart by their build metadata. */
  datatype Library = Library(parse: string -> Option<Version>, buildLe: (string, string) -> bool)
  {
    ghost predicate Sound() { TotalOrder(buildLe) }

    function Le(a: Version, b: Version): bool {
      if SamePrecedence(a, b) then buildLe(a.build, b.build) else PrecedenceLe(a, b)
    }
  }

  lemma LibraryOrder(lib: Library, a: Version, b: Version, c: Version)
    requires lib.Sound()
    ensures lib.Le(a, b) || lib.Le(b, a)
    ensures lib.Le(a, b) && lib.Le(b, c) ==> lib.Le(a, c)
    ensures lib.Le(a, b) && lib.Le(b, a) ==> a == b
    ensures lib.Le(a, b) ==> PrecedenceLe(a, b)
  {
    PrecedenceOrder(a, b, c);
    PrecedenceOrder(b, a, c);
    PrecedenceOrder(b, c, a);
  }

  /** Digits and dots only. */
  predicate Numbers(s: string) {
    forall i :: 0 <= i < |s| ==> '0' <= s[i] <= '9' || s[i] == '.'
  }

  lemma {:induction false} CoreOfNumbers(s: string, suffix: string)
    requires Numbers(s) && (suffix == "" || suffix[0] == '-' || suffix[0] == '+')
    ensures CoreText(s + suffix) == s
  {
    if s == "" {
      assert s + suffix == suffix;
    } else {
      CoreOfNumbers(s[1..], suffix);
      assert (s + suffix)[1..] == s[1..] + suffix;
    }
  }

  lemma {:induction false} DotsConcat(a: string, b: string)
    ensures Dots(a + b) == Dots(a) + Dots(b)
  {
    if a == "" {
      assert a + b == b;
    } else {
      DotsConcat(a[1..], b);
      assert (a + b)[1..] == a[1..] + b;
    }
  }

  lemma NumbersStand(s: string, suffix: string)
    requires Numbers(s) && s != ""
    requires suffix == "" || suffix[0] == '-' || suffix[0] == '+'
    requires suffix == "" || !IsSpace(suffix[|suffix| - 1])
    ensures Trimmed(s + suffix) == s + suffix && Unprefixed(s + suffix) == s + suffix
  {
    var t := s + suffix;
    assert t[0] == s[0];
    assert t[|t| - 1] == (if suffix == "" then s[|s| - 1] else suffix[|suffix| - 1]);
  }

  /** The library as the code uses it. */
  function LibraryOf(strict: string -> Option<Version>, buildLe: (string, string) -> bool): Library {
    Library(raw => TryParse(strict, raw), buildLe)
  }

  /** One, two or three numbers are the same version, with or without a `v`. */
  lemma ShortSpellings(strict: string -> Option<Version>, s: string)
    requires Numbers(s) && s != "" && Dots(s) == 0
    ensures TryParse(strict, s) == strict(s + ".0.0") && TryParse(strict, s + ".0") == TryParse(strict, s) && TryParse(strict, s + ".0.0") == TryParse(strict, s)
    ensures TryParse(strict, "v" + s) == TryParse(strict, s) && TryParse(strict, "V" + s) == TryParse(strict, s) && TryParse(strict, " " + s) == TryParse(strict, s)
  {
    var one, two := s + ".0", s + ".0.0";
    FilledUp(s, one, two);
    Spelled(strict, s, 0, ".0.0");
    Spelled(strict, one, 1, ".0");
    Spelled(strict, two, 2, "");
    Prefixed(s, "v");
    Prefixed(s, "V");
    Spaced(s);
  }

  lemma FilledUp(s: string, one: string, two: string)
    requires Numbers(s) && one == s + ".0" && two == s + ".0.0"
    ensures Numbers(one) && Numbers(two) && Dots(one) == Dots(s) + 1 && Dots(two) == Dots(s) + 2
    ensures one + ".0" == two && two + "" == two
  {
    assert two == one + ".0";
    ZeroHasOneDot();
    DotsConcat(s, ".0");
    DotsConcat(one, ".0");
  }

  lemma ZeroHasOneDot()
    ensures Dots(".0") == 1
  {
    assert ".0"[1..] == "0" && "0"[1..] == "";
  }

  lemma Spaced(s: string)
    requires Numbers(s) && s != ""
    ensures Unprefixed(Trimmed(" " + s)) == Unprefixed(Trimmed(s))
  {
    assert (" " + s)[1..] == s;
  }

  lemma Spelled(strict: string -> Option<Version>, s: string, dots: nat, more: string)
    requires Numbers(s) && s != "" && Dots(s) == dots <= 2 && more == (if dots == 0 then ".0.0" else if dots == 1 then ".0" else "")
    ensures TryParse(strict, s) == strict(s + more)
  {
    NumbersStand(s, "");
    CoreOfNumbers(s, "");
    assert s + "" == s;
  }

  lemma Prefixed(s: string, p: string)
    requires Numbers(s) && s != "" && (p == "v" || p == "V")
    ensures Unprefixed(Trimmed(p + s)) == s && Unprefixed(Trimmed(s)) == s
  {
    var t := p + s;
    NumbersStand(s, "");
    assert s + "" == s;
    assert t[0] == p[0] && t[1..] == s && t[|t| - 1] == s[|s| - 1];
    assert Trimmed(t) == t;
  }

  /** A pre-release or build needs all three numbers: the missing ones are put
      behind the suffix, where they do not count. */
  lemma SuffixNeedsThree(strict: string -> Option<Version>, s: string, suffix: string)
    requires ThreeNumbers(strict) && Numbers(s) && s != ""
    requires suffix != "" && (suffix[0] == '-' || suffix[0] == '+') && !IsSpace(suffix[|suffix| - 1])
    ensures Dots(s) < 2 ==> TryParse(strict, s + suffix) == None
    ensures Dots(s) == 2 ==> TryParse(strict, s + suffix) == strict(s + suffix)
  {
    NumbersStand(s, suffix);
    CoreOfNumbers(s, suffix);
    var more := if Dots(s) == 0 then ".0.0" else ".0";
    assert (s + suffix) + more == s + (suffix + more);
    CoreOfNumbers(s, suffix + more);
    assert (s + suffix) + "" == s + suffix;
  }

  // ---- compare and sort ---------------------------------------------------

  datatype Cmp = Less | Equal | Greater

  function Compare(lib: Library, a: string, b: string): Cmp {
    match (lib.parse(a), lib.parse(b))
    case (Some(x), Some(y)) => if x == y then Equal else if lib.Le(x, y) then Less else Greater
    case _ => if a == b then Equal else if TextLe(a, b) then Less else Greater
  }

  /** The comparison rule by rule: precedence first, then the build metadata;
      text where one of the two does not parse. */
  lemma CompareExact(lib: Library, a: string, b: string)
    requires lib.Sound()
    ensures lib.parse(a).Some? && lib.parse(b).Some? ==>
      var x, y := lib.parse(a).value, lib.parse(b).value;
      && (Below(x, y) ==> Compare(lib, a, b) == Less)
      && (Below(y, x) ==> Compare(lib, a, b) == Greater)
      && (!Below(x, y) && !Below(y, x) ==>
            Compare(lib, a, b) == (if x == y then Equal else if lib.buildLe(x.build, y.build) then Less else Greater))
    ensures lib.parse(a).None? || lib.parse(b).None? ==>
      && (Compare(lib, a, b) == Less <==> TextBelow(a, b)) && (Compare(lib, a, b) == Equal <==> a == b)
  {
    if lib.parse(a).Some? && lib.parse(b).Some? {
      var x, y := lib.parse(a).value, lib.parse(b).value;
      PrecedenceExact(x, y);
      PrecedenceExact(y, x);
      PrecedenceOrder(x, y, x);
      if x == y { PrecedenceOrder(x, x, x); }
    } else {
      TextExact(a, b);
      TextOrder();
    }
  }

  function NotGreater(lib: Library): (string, string) -> bool {
    (a: string, b: string) => Compare(lib, a, b) != Greater
  }

  ghost predicate AllParse(lib: Library, s: seq<string>) {
    forall v :: v in s ==> lib.parse(v).Some?
  }

  /** On versions that parse, `compare` is a total preorder that respects
      precedence. */
  lemma CompareOrder(lib: Library, a: string, b: string, c: string)
    requires lib.Sound() && lib.parse(a).Some? && lib.parse(b).Some? && lib.parse(c).Some?
    ensures NotGreater(lib)(a, b) || NotGreater(lib)(b, a)
    ensures NotGreater(lib)(a, b) && NotGreater(lib)(b, c) ==> NotGreater(lib)(a, c)
    ensures NotGreater(lib)(a, b) <==> lib.Le(lib.parse(a).value, lib.parse(b).value)
    ensures NotGreater(lib)(a, b) ==> PrecedenceLe(lib.parse(a).value, lib.parse(b).value)
    ensures Compare(lib, a, b) == Less <==> Compare(lib, b, a) == Greater
  {
    var x, y, z := lib.parse(a).value, lib.parse(b).value, lib.parse(c).value;
    LibraryOrder(lib, x, y, z);
    LibraryOrder(lib, y, z, x);
    LibraryOrder(lib, x, z, y);
  }

  /** Mixing in one unparseable entry can close a cycle. */
  lemma MixedListsCanCycle(lib: Library, a: string, b: string, c: string)
    requires a == "1.0.9" && b == "1.0.10" && c == "1.0.1x"
    requires lib.parse(a) == Some(Version(1, 0, 9, [], "")) && lib.parse(b) == Some(Version(1, 0, 10, [], "")) && lib.parse(c) == None
    ensures Compare(lib, a, b) == Less && Compare(lib, b, c) == Less && Compare(lib, c, a) == Less
  {
    CoreExact(Version(1, 0, 9, [], ""), Version(1, 0, 10, [], ""));
    CycleTexts(a, b, c);
  }

  lemma CycleTexts(a: string, b: string, c: string)
    requires a == "1.0.9" && b == "1.0.10" && c == "1.0.1x"
    ensures b != c && TextLe(b, c) && c != a && TextLe(c, a)
  {
    var p := "1.0.1";
    CommonPrefix(p, "0", "x");
    assert "1.0.10" == p + "0" && "1.0.1x" == p + "x";
    CommonPrefix("1.0.", "1x", "9");
    assert "1.0.1x" == "1.0." + "1x" && "1.0.9" == "1.0." + "9";
  }

  lemma {:induction false} CommonPrefix(p: string, a: string, b: string)
    ensures TextLe(p + a, p + b) == TextLe(a, b)
  {
    if p == "" {
      assert p + a == a && p + b == b;
    } else {
      CommonPrefix(p[1..], a, b);
      assert (p + a)[1..] == p[1..] + a && (p + b)[1..] == p[1..] + b;
    }
  }

  /** The same order with every unparseable entry put last: total on all text. */
  function Extended(lib: Library): (string, string) -> bool {
    (a: string, b: string) =>
      match (lib.parse(a), lib.parse(b))
      case (Some(x), Some(y)) => lib.Le(x, y)
      case (Some(_), None) => true
      case (None, Some(_)) => false
      case (None, None) => true
  }

  lemma ExtendedOrder(lib: Library)
    requires lib.Sound()
    ensures Sorting.TotalPreorder(Extended(lib))
  {
    var le := Extended(lib);
    forall a, b ensures le(a, b) || le(b, a) {
      if lib.parse(a).Some? && lib.parse(b).Some? {
        LibraryOrder(lib, lib.parse(a).value, lib.parse(b).value, lib.parse(b).value);
      }
    }
    forall a, b, c | le(a, b) && le(b, c) ensures le(a, c) {
      if lib.parse(a).Some? && lib.parse(b).Some? && lib.parse(c).Some? {
        LibraryOrder(lib, lib.parse(a).value, lib.parse(b).value, lib.parse(c).value);
      }
    }
  }

  lemma {:induction false} InsertAgrees(lib: Library, x: string, s: seq<string>)
    requires lib.Sound() && AllParse(lib, s) && lib.parse(x).Some?
    ensures Sorting.Insert(NotGreater(lib), x, s) == Sorting.Insert(Extended(lib), x, s)
  {
    if s != [] {
      CompareOrder(lib, x, s[0], x);
      InsertAgrees(lib, x, s[1..]);
    }
  }

  lemma {:induction false} SortAgrees(lib: Library, s: seq<string>)
    requires lib.Sound() && AllParse(lib, s)
    ensures Sorting.Sorted(NotGreater(lib), s) == Sorting.Sorted(Extended(lib), s)
    ensures AllParse(lib, Sorting.Sorted(Extended(lib), s))
  {
    ExtendedOrder(lib);
    Sorting.SortedIsStable(Extended(lib), s);
    forall v | v in Sorting.Sorted(Extended(lib), s) ensures v in s {
      assert v in multiset(Sorting.Sorted(Extended(lib), s));
    }
    if s != [] {
      SortAgrees(lib, s[1..]);
      InsertAgrees(lib, s[0], Sorting.Sorted(Extended(lib), s[1..]));
    }
  }

  /** Sorting a list that parses gives an ascending stable permutation. */
  lemma SortIsAscendingStable(lib: Library, s: seq<string>)
    requires lib.Sound() && AllParse(lib, s)
    ensures var t := Sorting.Sorted(NotGreater(lib), s);
      && multiset(t) == multiset(s)
      && (forall i, j :: 0 <= i < j < |t| ==> Compare(lib, t[i], t[j]) != Greater)
      && (forall x :: lib.parse(x).Some? ==> Sorting.Class(Extended(lib), t, x) == Sorting.Class(Extended(lib), s, x))
  {
    SortAgrees(lib, s);
    ExtendedOrder(lib);
    Sorting.SortedIsStable(Extended(lib), s);
    var t := Sorting.Sorted(Extended(lib), s);
    forall i, j | 0 <= i < j < |t| ensures Compare(lib, t[i], t[j]) != Greater {
      assert Extended(lib)(t[i], t[j]);
      CompareOrder(lib, t[i], t[j], t[j]);
    }
  }

  // ---- the highest version ------------------------------------------------

  /** The first entry that no parseable entry exceeds. */
  ghost predicate IsHighest(lib: Library, s: seq<string>, i: nat)
    requires i < |s|
  {
    && lib.parse(s[i]).Some?
    && (forall j :: 0 <= j < |s| && lib.parse(s[j]).Some? ==> lib.Le(lib.parse(s[j]).value, lib.parse(s[i]).value))
    && (forall j :: 0 <= j < i && lib.parse(s[j]).Some? ==> lib.parse(s[j]).value != lib.parse(s[i]).value)
  }

  lemma NoneAbove(lib: Library, s: seq<string>, i: nat)
    requires lib.Sound() && i < |s| && IsHighest(lib, s, i)
    ensures forall v :: v in s && lib.parse(v).Some? ==> !Below(lib.parse(s[i]).value, lib.parse(v).value)
  {
    forall v | v in s && lib.parse(v).Some?
      ensures !Below(lib.parse(s[i]).value, lib.parse(v).value)
    {
      var j :| 0 <= j < |s| && s[j] == v;
      LibraryOrder(lib, lib.parse(v).value, lib.parse(s[i]).value, lib.parse(v).value);
      PrecedenceExact(lib.parse(s[i]).value, lib.parse(v).value);
    }
  }

  /** Entries that do not parse are ignored. */
  method Highest(lib: Library, versions: seq<string>) returns (best: Option<string>, ghost at: nat)
    requires lib.Sound()
    ensures best.None? <==> forall v :: v in versions ==> lib.parse(v).None?
    ensures best.Some? ==> at < |versions| && best.value == versions[at] && IsHighest(lib, versions, at)
    ensures best.Some? ==> forall v :: v in versions && lib.parse(v).Some? ==> !Below(lib.parse(best.value).value, lib.parse(v).value)
  {
    best, at := None, 0;
    var top: Option<Version> := None;
    for i := 0 to |versions|
      invariant best.None? <==> top.None?
      invariant best.None? <==> forall j :: 0 <= j < i ==> lib.parse(versions[j]).None?
      invariant best.Some? ==> at < i && best.value == versions[at] && top == lib.parse(versions[at])
      invariant best.Some? ==> IsHighest(lib, versions[..i], at)
    {
      var p := lib.parse(versions[i]);
      HighestStep(lib, versions, i, if best.Some? then Some(at) else None);
      if p.None? {
        continue;
      }
      if top.Some? && lib.Le(p.value, top.value) {
      } else {
        best, top, at := Some(versions[i]), p, i;
      }
    }
    assert versions[..|versions|] == versions;
    if best.Some? { NoneAbove(lib, versions, at); }
  }

  /** How one more entry changes which position is the highest. */
  lemma HighestStep(lib: Library, s: seq<string>, i: nat, at: Option<nat>)
    requires lib.Sound() && i < |s|
    requires at.Some? ==> at.value < i && IsHighest(lib, s[..i], at.value)
    requires at.None? ==> forall j :: 0 <= j < i ==> lib.parse(s[j]).None?
    ensures (at.Some? && (lib.parse(s[i]).None? || lib.Le(lib.parse(s[i]).value, lib.parse(s[at.value]).value))) ==>
              IsHighest(lib, s[..i + 1], at.value)
    ensures (lib.parse(s[i]).Some? && (at.Some? ==> !lib.Le(lib.parse(s[i]).value, lib.parse(s[at.value]).value))) ==>
              IsHighest(lib, s[..i + 1], i)
  {
    assert forall j :: 0 <= j < i ==> s[..i + 1][j] == s[..i][j] == s[j];
    if lib.parse(s[i]).Some? {
      var p := lib.parse(s[i]).value;
      LibraryOrder(lib, p, p, p);
      if at.Some? && !lib.Le(p, lib.parse(s[at.value]).value) {
        var q := lib.parse(s[at.value]).value;
        forall j | 0 <= j < i && lib.parse(s[j]).Some?
          ensures lib.Le(lib.parse(s[j]).value, p) && lib.parse(s[j]).value != p
        {
          assert lib.parse(s[..i][j]).Some?;
          LibraryOrder(lib, p, q, q);
          LibraryOrder(lib, lib.parse(s[j]).value, q, p);
        }
      }
    }
  }

  /** On a list that parses, the highest and the last of the sorted list have
      the same precedence. */
  lemma HighestIsLastSorted(lib: Library, s: seq<string>, i: nat)
    requires lib.Sound() && AllParse(lib, s) && i < |s| && IsHighest(lib, s, i)
    ensures var t := Sorting.Sorted(NotGreater(lib), s);
      && |t| == |s| && lib.parse(t[|t| - 1]) == lib.parse(s[i])
  {
    var j := LastSorted(lib, s, i);
    SameVersion(lib, s[i], s[j]);
  }

  /** The last of the sorted list is an entry that entry `i` does not exceed. */
  lemma LastSorted(lib: Library, s: seq<string>, i: nat) returns (j: nat)
    requires lib.Sound() && AllParse(lib, s) && i < |s|
    ensures var t := Sorting.Sorted(NotGreater(lib), s);
      && j < |s| && |t| == |s| && s[j] == t[|t| - 1] && (s[i] == s[j] || Compare(lib, s[i], s[j]) != Greater)
  {
    SortAscends(lib, s);
    j := LastAscending(lib, s, Sorting.Sorted(NotGreater(lib), s), i);
  }

  ghost predicate Ascends(lib: Library, t: seq<string>) {
    forall i, j :: 0 <= i < j < |t| ==> Compare(lib, t[i], t[j]) != Greater
  }

  lemma SortAscends(lib: Library, s: seq<string>)
    requires lib.Sound() && AllParse(lib, s)
    ensures multiset(Sorting.Sorted(NotGreater(lib), s)) == multiset(s) && Ascends(lib, Sorting.Sorted(NotGreater(lib), s))
  {
    SortIsAscendingStable(lib, s);
  }

  lemma LastAscending(lib: Library, s: seq<string>, t: seq<string>, i: nat) returns (j: nat)
    requires multiset(t) == multiset(s) && i < |s|
    requires Ascends(lib, t)
    ensures j < |s| && |t| == |s| && s[j] == t[|t| - 1] && (s[i] == s[j] || Compare(lib, s[i], s[j]) != Greater)
  {
    ghost var k;
    j, k := SameElements(s, t, i);
    assert k < |t| - 1 ==> Compare(lib, t[k], t[|t| - 1]) != Greater;
  }

  lemma SameVersion(lib: Library, a: string, b: string)
    requires lib.Sound() && lib.parse(a).Some? && lib.parse(b).Some?
    requires (a == b || Compare(lib, a, b) != Greater) && lib.Le(lib.parse(b).value, lib.parse(a).value)
    ensures lib.parse(a) == lib.parse(b)
  {
    CompareOrder(lib, a, b, b);
    LibraryOrder(lib, lib.parse(a).value, lib.parse(b).value, lib.parse(b).value);
  }

  /** Where the last of a permutation came from, and where entry `i` went. */
  lemma SameElements(s: seq<string>, t: seq<string>, i: nat) returns (j: nat, k: nat)
    requires i < |s| && multiset(t) == multiset(s)
    ensures |t| == |s| && j < |s| && s[j] == t[|t| - 1] && k < |t| && t[k] == s[i]
  {
    assert |multiset(t)| == |multiset(s)|;
    assert t[|t| - 1] in multiset(t);
    j :| 0 <= j < |s| && s[j] == t[|t| - 1];
    assert s[i] in multiset(t);
    k :| 0 <= k < |t| && t[k] == s[i];
  }

  /** Sorts in place. A list that parses becomes ascending, entries of equal
      version keeping their order. On another list the comparison need not be an
      order; all the entries are still there. */
  method SortVec(lib: Library, versions: array<string>)
    requires lib.Sound()
    modifies versions
    ensures multiset(versions[..]) == multiset(old(versions[..]))
    ensures AllParse(lib, old(versions[..])) ==>
      && (forall i, j :: 0 <= i < j < versions.Length ==> Compare(lib, versions[i], versions[j]) != Greater)
      && (forall x :: lib.parse(x).Some? ==>
            Sorting.Class(Extended(lib), versions[..], x) == Sorting.Class(Extended(lib), old(versions[..]), x))
  {
    ghost var before := versions[..];
    var t := Sorting.Sorted(NotGreater(lib), versions[..]);
    SortElements(NotGreater(lib), before);
    if AllParse(lib, before) { SortIsAscendingStable(lib, before); }
    forall i | 0 <= i < versions.Length {
      versions[i] := t[i];
    }
    assert versions[..] == t;
  }

  lemma {:induction false} SortElements(le: (string, string) -> bool, s: seq<string>)
    ensures |Sorting.Sorted(le, s)| == |s| && multiset(Sorting.Sorted(le, s)) == multiset(s)
  {
    if s != [] {
      SortElements(le, s[1..]);
      Sorting.InsertElements(le, s[0], Sorting.Sorted(le, s[1..]));
      assert s == [s[0]] + s[1..];
      assert |multiset(Sorting.Sorted(le, s))| == |multiset(s)|;
    }
  }
}
