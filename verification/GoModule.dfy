/** Module path spellings of the Go proxy: URL encoding, the proxy's `!`
    encoding, and the canonical key all spellings share. Text is its UTF-8
    bytes; only ASCII bytes are ever changed. */
module GoModule {
  import opened Common

  const PERCENT: Byte := 37
  const BANG: Byte := 33
  const SLASH: Byte := 47

  predicate IsUpper(b: Byte) { 65 <= b <= 90 }
  predicate IsLower(b: Byte) { 97 <= b <= 122 }
  predicate IsLetter(b: Byte) { IsUpper(b) || IsLower(b) }
  predicate IsDigit(b: Byte) { 48 <= b <= 57 }

  /** Letters, digits and `-`, `_`, `.`, `~`. */
  predicate Unreserved(b: Byte) {
    IsLetter(b) || IsDigit(b) || b == 45 || b == 95 || b == 46 || b == 126
  }

  function LowerByte(b: Byte): Byte { if IsUpper(b) then b + 32 else b }

  function Lower(s: Bytes): Bytes {
    if s == [] then [] else [LowerByte(s[0])] + Lower(s[1..])
  }

  predicate IsHexDigit(b: Byte) { IsDigit(b) || 65 <= b <= 70 || 97 <= b <= 102 }

  function HexValue(b: Byte): (v: nat)
    requires IsHexDigit(b)
    ensures v < 16
  {
    if IsDigit(b) then b - 48 else if IsUpper(b) then b - 55 else b - 87
  }

  function HexUpper(v: nat): (b: Byte)
    requires v < 16
    ensures IsHexDigit(b) && HexValue(b) == v
  {
    if v < 10 then 48 + v else 55 + v
  }

  // ---- what the loops compute ---------------------------------------------

  function EncodeByte(b: Byte): Bytes {
    if Unreserved(b) then [b] else [PERCENT, HexUpper(b / 16), HexUpper(b % 16)]
  }

  function UrlEncoded(s: Bytes): Bytes {
    if s == [] then [] else EncodeByte(s[0]) + UrlEncoded(s[1..])
  }

  predicate StartsEscape(s: Bytes) {
    |s| > 2 && s[0] == PERCENT && IsHexDigit(s[1]) && IsHexDigit(s[2])
  }

  function PercentDecoded(s: Bytes): Bytes {
    if s == [] then []
    else if StartsEscape(s) then [HexValue(s[1]) * 16 + HexValue(s[2])] + PercentDecoded(s[3..])
    else [s[0]] + PercentDecoded(s[1..])
  }

  function BangEncoded(s: Bytes): Bytes {
    if s == [] then []
    else (if IsUpper(s[0]) then [BANG, LowerByte(s[0])] else [s[0]]) + BangEncoded(s[1..])
  }

  /** `!x` becomes lower-case `x`; everything else is lowered as it stands. */
  function Unbanged(s: Bytes): Bytes {
    if s == [] then []
    else if s[0] == BANG && |s| > 1 && IsLetter(s[1]) then [LowerByte(s[1])] + Unbanged(s[2..])
    else [LowerByte(s[0])] + Unbanged(s[1..])
  }

  function Normalized(m: Bytes): Bytes { Unbanged(PercentDecoded(m)) }

  // ---- the code -----------------------------------------------------------

  lemma Regroup(a: Bytes, b: Bytes, c: Bytes)
    ensures a + (b + c) == (a + b) + c
  {
  }

  method UrlEncode(s: Bytes) returns (out: Bytes)
    ensures out == UrlEncoded(s)
  {
    out := [];
    for i := 0 to |s|
      invariant UrlEncoded(s) == out + UrlEncoded(s[i..])
    {
      assert s[i..][1..] == s[i + 1..];
      Regroup(out, EncodeByte(s[i]), UrlEncoded(s[i + 1..]));
      if Unreserved(s[i]) {
        out := out + [s[i]];
      } else {
        out := out + [PERCENT, HexUpper(s[i] / 16), HexUpper(s[i] % 16)];
      }
    }
  }

  lemma NextDecoded(s: Bytes, i: nat)
    requires i < |s|
    ensures PercentDecoded(s[i..]) ==
      if i + 2 < |s| && s[i] == PERCENT && IsHexDigit(s[i + 1]) && IsHexDigit(s[i + 2])
      then [HexValue(s[i + 1]) * 16 + HexValue(s[i + 2])] + PercentDecoded(s[i + 3..])
      else [s[i]] + PercentDecoded(s[i + 1..])
  {
    assert s[i..][1..] == s[i + 1..];
    if i + 2 < |s| { assert s[i..][3..] == s[i + 3..]; }
  }

  method PercentDecode(s: Bytes) returns (out: Bytes)
    ensures out == PercentDecoded(s)
  {
    out := [];
    var i := 0;
    while i < |s|
      invariant 0 <= i <= |s|
      invariant PercentDecoded(s) == out + PercentDecoded(s[i..])
    {
      NextDecoded(s, i);
      if s[i] == PERCENT && i + 2 < |s| && IsHexDigit(s[i + 1]) {
        if IsHexDigit(s[i + 2]) {
          var b := HexValue(s[i + 1]) * 16 + HexValue(s[i + 2]);
          Regroup(out, [b], PercentDecoded(s[i + 3..]));
          out := out + [b];
          i := i + 3;
          continue;
        }
      }
      Regroup(out, [s[i]], PercentDecoded(s[i + 1..]));
      out := out + [s[i]];
      i := i + 1;
    }
  }

  lemma NextBanged(m: Bytes, i: nat)
    requires i < |m|
    ensures BangEncoded(m[i..]) == (if IsUpper(m[i]) then [BANG, LowerByte(m[i])] else [m[i]]) + BangEncoded(m[i + 1..])
  {
    assert m[i..][1..] == m[i + 1..];
  }

  method EncodeModulePath(m: Bytes) returns (out: Bytes)
    ensures out == BangEncoded(m)
  {
    out := [];
    for i := 0 to |m|
      invariant BangEncoded(m) == out + BangEncoded(m[i..])
    {
      NextBanged(m, i);
      if IsUpper(m[i]) {
        Regroup(out, [BANG, LowerByte(m[i])], BangEncoded(m[i + 1..]));
        out := out + [BANG] + [LowerByte(m[i])];
      } else {
        Regroup(out, [m[i]], BangEncoded(m[i + 1..]));
        out := out + [m[i]];
      }
    }
  }

  lemma NextUnbanged(s: Bytes, i: nat)
    requires i < |s|
    ensures Unbanged(s[i..]) ==
      if s[i] == BANG && i + 1 < |s| && IsLetter(s[i + 1])
      then [LowerByte(s[i + 1])] + Unbanged(s[i + 2..])
      else [LowerByte(s[i])] + Unbanged(s[i + 1..])
  {
    assert s[i..][1..] == s[i + 1..];
    if i + 1 < |s| { assert s[i..][2..] == s[i + 2..]; }
  }

  method NormalizeModule(m: Bytes) returns (out: Bytes)
    ensures out == Normalized(m)
  {
    var decoded := PercentDecode(m);
    out := [];
    var i := 0;
    while i < |decoded|
      invariant 0 <= i <= |decoded|
      invariant Unbanged(decoded) == out + Unbanged(decoded[i..])
    {
      NextUnbanged(decoded, i);
      if decoded[i] == BANG && i + 1 < |decoded| && IsLetter(decoded[i + 1]) {
        Regroup(out, [LowerByte(decoded[i + 1])], Unbanged(decoded[i + 2..]));
        out := out + [LowerByte(decoded[i + 1])];
        i := i + 2;
      } else {
        Regroup(out, [LowerByte(decoded[i])], Unbanged(decoded[i + 1..]));
        out := out + [LowerByte(decoded[i])];
        i := i + 1;
      }
    }
  }

  // ---- the properties -----------------------------------------------------

  /** Decoding undoes encoding on every byte string. */
  lemma {:induction false} DecodeUndoesEncode(s: Bytes)
    ensures PercentDecoded(UrlEncoded(s)) == s
  {
    if s != [] {
      DecodeUndoesEncode(s[1..]);
      var e, rest := EncodeByte(s[0]), UrlEncoded(s[1..]);
      if Unreserved(s[0]) {
        assert (e + rest)[1..] == rest;
      } else {
        assert (e + rest)[3..] == rest && StartsEscape(e + rest);
      }
    }
  }

  /** Module paths: unreserved bytes and slashes. */
  ghost predicate PathBytes(m: Bytes) {
    forall i :: 0 <= i < |m| ==> Unreserved(m[i]) || m[i] == SLASH
  }

  lemma {:induction false} NoEscapes(s: Bytes)
    requires forall i :: 0 <= i < |s| ==> s[i] != PERCENT
    ensures PercentDecoded(s) == s
  {
    if s != [] { NoEscapes(s[1..]); }
  }

  lemma {:induction false} NoBangs(s: Bytes)
    requires forall i :: 0 <= i < |s| ==> s[i] != BANG
    ensures Unbanged(s) == Lower(s)
  {
    if s != [] { NoBangs(s[1..]); }
  }

  lemma {:induction false} UnbangUndoes(m: Bytes)
    requires PathBytes(m)
    ensures Unbanged(BangEncoded(m)) == Lower(m)
    ensures forall i :: 0 <= i < |BangEncoded(m)| ==> BangEncoded(m)[i] != PERCENT
  {
    if m != [] {
      UnbangUndoes(m[1..]);
      var rest := BangEncoded(m[1..]);
      if IsUpper(m[0]) {
        var e := [BANG, LowerByte(m[0])] + rest;
        assert e[2..] == rest;
      } else {
        var e := [m[0]] + rest;
        assert e[1..] == rest;
      }
    }
  }

  lemma {:induction false} LowerPath(m: Bytes)
    requires PathBytes(m)
    ensures PathBytes(Lower(m)) && Lower(Lower(m)) == Lower(m)
  {
    if m != [] {
      LowerPath(m[1..]);
      assert Lower(m)[1..] == Lower(m[1..]);
    }
  }

  lemma PlainKey(m: Bytes)
    requires PathBytes(m)
    ensures Normalized(m) == Lower(m)
  {
    NoEscapes(m);
    NoBangs(m);
  }

  /** Plain, `!`-encoded, percent-encoded and both at once: one key, the
      lower-case path, which is its own key. */
  lemma SpellingsShareOneKey(m: Bytes)
    requires PathBytes(m)
    ensures Normalized(m) == Lower(m)
    ensures Normalized(BangEncoded(m)) == Lower(m)
    ensures Normalized(UrlEncoded(m)) == Lower(m)
    ensures Normalized(UrlEncoded(BangEncoded(m))) == Lower(m)
    ensures Normalized(Lower(m)) == Lower(m)
  {
    PlainKey(m);
    assert Normalized(BangEncoded(m)) == Lower(m) by {
      UnbangUndoes(m);
      NoEscapes(BangEncoded(m));
    }
    assert PercentDecoded(UrlEncoded(m)) == m && PercentDecoded(m) == m by {
      DecodeUndoesEncode(m);
      NoEscapes(m);
    }
    assert PercentDecoded(UrlEncoded(BangEncoded(m))) == BangEncoded(m) && Unbanged(BangEncoded(m)) == Lower(m) by {
      DecodeUndoesEncode(BangEncoded(m));
      UnbangUndoes(m);
    }
    assert Normalized(Lower(m)) == Lower(m) by {
      LowerPath(m);
      PlainKey(Lower(m));
    }
  }

  lemma {:induction false} EncodedLength(m: Bytes)
    requires PathBytes(m)
    ensures |UrlEncoded(m)| >= |m|
    ensures |UrlEncoded(m)| == |m| <==> SLASH !in m
    ensures forall i :: 0 <= i < |UrlEncoded(m)| ==> UrlEncoded(m)[i] != BANG
    ensures SLASH !in m ==> UrlEncoded(m) == m
  {
    if m != [] {
      EncodedLength(m[1..]);
      assert m == [m[0]] + m[1..];
      assert EncodeByte(m[0])[0] != BANG;
    }
  }

  lemma {:induction false} LowerLength(s: Bytes)
    ensures |Lower(s)| == |s|
  {
    if s != [] { LowerLength(s[1..]); }
  }

  /** Percent-encoding twice is undone only once, so that spelling reaches the
      key exactly when there was nothing to encode. */
  lemma TwicePercentEncoded(m: Bytes)
    requires PathBytes(m)
    ensures Normalized(UrlEncoded(UrlEncoded(m))) == Lower(m) <==> SLASH !in m
  {
    DecodeUndoesEncode(UrlEncoded(m));
    EncodedLength(m);
    NoBangs(UrlEncoded(m));
    LowerLength(UrlEncoded(m));
    LowerLength(m);
  }

  // ---- the encodings, byte by byte ---------------------------------------------

  lemma {:induction false} UrlEncodedConcat(a: Bytes, b: Bytes)
    ensures UrlEncoded(a + b) == UrlEncoded(a) + UrlEncoded(b)
  {
    if a == [] {
      assert a + b == b;
    } else {
      UrlEncodedConcat(a[1..], b);
      assert (a + b)[1..] == a[1..] + b;
      Regroup(EncodeByte(a[0]), UrlEncoded(a[1..]), UrlEncoded(b));
    }
  }

  /** Letters, digits, hyphen, dot, underscore and tilde stand for themselves;
      any other byte is a percent sign and two digits, upper-case hex, of its value. */
  lemma UrlEncodedByte(b: Byte)
    ensures var plain := 48 <= b <= 57 || 65 <= b <= 90 || 97 <= b <= 122 || b == 45 || b == 46 || b == 95 || b == 126;
      var e := UrlEncoded([b]);
      if plain then e == [b]
      else |e| == 3 && e[0] == 37 && UpperHex(e[1]) && UpperHex(e[2]) && DigitOf(e[1]) * 16 + DigitOf(e[2]) == b
  {
    assert [b][1..] == [];
  }

  predicate UpperHex(d: Byte) { 48 <= d <= 57 || 65 <= d <= 70 }

  /** A percent sign and two hex digits of either case. */
  predicate EscapeAt(s: Bytes, i: int) {
    && 0 <= i < |s| - 2 && s[i] == 37
    && (UpperHex(s[i + 1]) || 97 <= s[i + 1] <= 102) && (UpperHex(s[i + 2]) || 97 <= s[i + 2] <= 102)
  }

  function DigitOf(d: Byte): int {
    if d <= 57 then d - 48 else if d <= 70 then d - 65 + 10 else d - 97 + 10
  }

  function EscapedByte(s: Bytes, i: int): Byte
    requires EscapeAt(s, i)
  {
    DigitOf(s[i + 1]) * 16 + DigitOf(s[i + 2])
  }

  lemma EscapesShift(s: Bytes)
    requires s != []
    ensures forall j :: EscapeAt(s[1..], j) <==> j >= 0 && EscapeAt(s, j + 1)
  {
  }

  /** Decoding leaves everything before the first escape as it is, malformed
      escapes included, gives the byte the escape stands for, and goes on after it. */
  lemma {:induction false} FirstEscapeDecoded(s: Bytes, i: nat)
    requires EscapeAt(s, i) && forall j :: 0 <= j < i ==> !EscapeAt(s, j)
    ensures PercentDecoded(s) == s[..i] + [EscapedByte(s, i)] + PercentDecoded(s[i + 3..])
    decreases i
  {
    if i == 0 {
      assert StartsEscape(s) && s[..0] == [];
    } else {
      assert !StartsEscape(s) by { assert !EscapeAt(s, 0); }
      EscapesShift(s);
      FirstEscapeDecoded(s[1..], i - 1);
      assert s[1..][i - 1 + 3..] == s[i + 3..];
      PlainStep(s, i, [EscapedByte(s, i)], PercentDecoded(s[i + 3..]));
    }
  }

  lemma PlainStep(s: Bytes, i: nat, e: Bytes, rest: Bytes)
    requires 0 < i <= |s| && !StartsEscape(s) && PercentDecoded(s[1..]) == s[1..][..i - 1] + e + rest
    ensures PercentDecoded(s) == s[..i] + e + rest
  {
    assert s[..i] == [s[0]] + s[1..][..i - 1];
    Regroup([s[0]], s[1..][..i - 1] + e, rest);
    Regroup([s[0]], s[1..][..i - 1], e);
  }

  /** Without an escape nothing changes. */
  lemma {:induction false} NoEscapeUnchanged(s: Bytes)
    requires forall j :: !EscapeAt(s, j)
    ensures PercentDecoded(s) == s
  {
    if s != [] {
      assert !StartsEscape(s) by { assert !EscapeAt(s, 0); }
      EscapesShift(s);
      NoEscapeUnchanged(s[1..]);
    }
  }

  /** The proxy's reading of the encoding: after an exclamation mark, a letter is a
      capital. */
  function Restored(s: Bytes): Bytes {
    if s == [] then []
    else if s[0] == 33 && |s| > 1 && 97 <= s[1] <= 122 then [s[1] - 97 + 65] + Restored(s[2..])
    else [s[0]] + Restored(s[1..])
  }

  /** The encoding has no capitals, and loses nothing. */
  lemma {:induction false} BangReversible(m: Bytes)
    requires BANG !in m
    ensures forall i :: 0 <= i < |BangEncoded(m)| ==> !(65 <= BangEncoded(m)[i] <= 90)
    ensures Restored(BangEncoded(m)) == m
  {
    if m != [] {
      BangReversible(m[1..]);
      var rest := BangEncoded(m[1..]);
      assert m[0] in m && m == [m[0]] + m[1..];
      if IsUpper(m[0]) {
        assert ([BANG, LowerByte(m[0])] + rest)[2..] == rest;
      } else {
        assert ([m[0]] + rest)[1..] == rest;
      }
    }
  }

  lemma {:induction false} LowerAt(s: Bytes, i: nat)
    requires i < |s|
    ensures |Lower(s)| == |s| && Lower(s)[i] == (if 65 <= s[i] <= 90 then s[i] - 65 + 97 else s[i])
  {
    LowerLength(s);
    if i > 0 { LowerAt(s[1..], i - 1); }
  }

  lemma BangAtStart(b: Bytes)
    ensures Unbanged([33] + b) == AfterBang(b)
  {
    var s := [33] + b;
    assert s[1..] == b;
    if b != [] {
      assert s[2..] == b[1..] && s[1] == b[0];
      LowerOne(b[0]);
      assert b[..1] == [b[0]];
    }
  }

  lemma LowerOne(b: Byte)
    ensures Lower([b]) == [LowerByte(b)]
  {
    assert [b][1..] == [];
  }

  /** Normalising lowers what comes before an exclamation mark, drops the mark
      before a letter, which it lowers, and keeps it before anything else. */
  lemma {:induction false} FirstBang(a: Bytes, b: Bytes)
    requires BANG !in a
    ensures Unbanged(a + [33] + b) == Lower(a) + AfterBang(b)
  {
    if a == [] {
      assert [] + [33] + b == [33] + b;
      BangAtStart(b);
    } else {
      FirstBang(a[1..], b);
      assert a + [33] + b == [a[0]] + (a[1..] + [33] + b);
      assert a[0] in a;
      PlainHead(a[0], a[1..] + [33] + b);
      Regroup([LowerByte(a[0])], Lower(a[1..]), AfterBang(b));
    }
  }

  lemma PlainHead(c: Byte, rest: Bytes)
    requires c != BANG
    ensures Unbanged([c] + rest) == [LowerByte(c)] + Unbanged(rest)
  {
    assert ([c] + rest)[1..] == rest;
  }

  /** What becomes of an exclamation mark and what follows it. */
  function AfterBang(b: Bytes): Bytes {
    if b != [] && (65 <= b[0] <= 90 || 97 <= b[0] <= 122) then Lower(b[..1]) + Unbanged(b[1..]) else [33] + Unbanged(b)
  }
}
