// Reading and writing UTF-8, and the two conversions (unicode.h, unicode.cpp).

module UnicodeConversion {
  import opened Word
  import opened UnicodeText

  const INVALID: nat := 0xffff_ffff

  datatype Status = OK | INSUFFICIENT_SPACE | INVALID_STRING

  // ----- the masks

  lemma Masks(b: byte)
    ensures BitAnd(b, 0xe0) == b - b % 0x20 && BitAnd(b, 0x1f) == b % 0x20
    ensures BitAnd(b, 0xf0) == b - b % 0x10 && BitAnd(b, 0x0f) == b % 0x10
    ensures BitAnd(b, 0xf8) == b - b % 8 && BitAnd(b, 0x07) == b % 8
    ensures BitAnd(b, 0xc0) == b - b % 0x40 && BitAnd(b, 0x3f) == b % 0x40
  {
    Powers();
    BitAndUpper(b, FIVE, EIGHT);
    BitAndUpper(b, FOUR, EIGHT);
    BitAndUpper(b, THREE, EIGHT);
    BitAndUpper(b, SIX, EIGHT);
    BitAndLower(b, FIVE);
    BitAndLower(b, FOUR);
    BitAndLower(b, THREE);
    BitAndLower(b, SIX);
  }

  const THREE: nat := 3
  const FOUR: nat := 4
  const FIVE: nat := 5
  const SIX: nat := 6
  const EIGHT: nat := 8

  lemma Powers()
    ensures Pow2(THREE) == 8 && Pow2(FOUR) == 0x10 && Pow2(FIVE) == 0x20 && Pow2(SIX) == 0x40 && Pow2(EIGHT) == 0x100
  {
    assert Pow2(2) == 4;
    assert Pow2(6) == 0x40;
  }

  /** Shifting by six and or-ing in a continuation byte's bits. */
  lemma ShiftOr(c: nat, next: byte)
    ensures BitOr(c * 0x40, next % 0x40) == More(c, next)
  {
    Powers();
    BitOrDisjoint(c, next % 0x40, SIX);
  }

  // ----- reading

  /** What the first k bytes of an encoding of n bytes come to. */
  function Partial(s: seq<byte>, n: nat, k: nat): nat
    requires 1 <= k <= n <= 4 && k <= |s|
    decreases k
  {
    if k == 1 then LeadPart(s[0], n) else More(Partial(s, n, k - 1), s[k - 1])
  }

  function LeadPart(lead: nat, n: nat): nat
  {
    if n == 1 then lead else if n == 2 then lead % 0x20 else if n == 3 then lead % 0x10 else lead % 8
  }

  lemma PartialWhole(s: seq<byte>, n: nat)
    requires 1 <= n <= 4 && n <= |s|
    ensures Partial(s, n, n) == Assembled(s[..n])
  {
    PartialSteps(s, n);
    var r := s[..n];
    assert r[0] == s[0] && (n > 1 ==> r[1] == s[1]) && (n > 2 ==> r[2] == s[2]) && (n > 3 ==> r[3] == s[3]);
  }

  lemma PartialSteps(s: seq<byte>, n: nat)
    requires 1 <= n <= 4 && n <= |s|
    ensures Partial(s, n, 1) == LeadPart(s[0], n)
    ensures n > 1 ==> Partial(s, n, 2) == More(LeadPart(s[0], n), s[1])
    ensures n > 2 ==> Partial(s, n, 3) == More(Partial(s, n, 2), s[2])
    ensures n > 3 ==> Partial(s, n, 4) == More(Partial(s, n, 3), s[3])
  {
  }

  lemma LeadMasks(b: byte)
    ensures BitAnd(b, 0xe0) == 0xc0 <==> LeadOf(b, 2)
    ensures BitAnd(b, 0xf0) == 0xe0 <==> LeadOf(b, 3)
    ensures BitAnd(b, 0xf8) == 0xf0 <==> LeadOf(b, 4)
    ensures BitAnd(b, 0xc0) == 0x80 <==> Continuation(b)
  {
    Masks(b);
    Between(b, 0x20, 6);
    Between(b, 0x10, 14);
    Between(b, 8, 30);
    Between(b, 0x40, 2);
  }

  /** A number without its remainder is q * m just below the next multiple. */
  lemma Between(b: nat, m: nat, q: nat)
    requires m > 0
    ensures b - b % m == q * m <==> q * m <= b < q * m + m
  {
    if q * m <= b < q * m + m { DivModUnique(b, m, q, b - q * m); }
  }

  /** How many bytes follow the lead byte, and the bits of its own. */
  method ReadLead(b: byte) returns (lead: bool, c: nat, additionalBytes: nat)
    requires b >= 0x80
    ensures lead <==> LeadOf(b, 2) || LeadOf(b, 3) || LeadOf(b, 4)
    ensures lead ==> 1 <= additionalBytes <= 3 && LeadOf(b, additionalBytes + 1) && c == LeadPart(b, additionalBytes + 1)
  {
    LeadMasks(b);
    if BitAnd(b, 0xe0) == 0xc0 {
      Masks(b);
      return true, BitAnd(b, 0x1f), 1;
    } else if BitAnd(b, 0xf0) == 0xe0 {
      Masks(b);
      return true, BitAnd(b, 0x0f), 2;
    } else if BitAnd(b, 0xf8) == 0xf0 {
      Masks(b);
      return true, BitAnd(b, 0x07), 3;
    }
    return false, 0, 0;
  }

  /** Six more bits, if the byte has them. */
  method ReadMore(c: nat, next: byte) returns (continues: bool, r: nat)
    ensures continues <==> Continuation(next)
    ensures continues ==> r == More(c, next)
  {
    LeadMasks(next);
    if BitAnd(next, 0xc0) != 0x80 { return false, 0; }
    Masks(next);
    ShiftOr(c, next);
    return true, BitOr(c * 0x40, BitAnd(next, 0x3f));
  }

  /** Reads one code point; end is the length, and at the end the answer is 0. */
  method NextUtf8(s: seq<byte>, it: nat) returns (c: nat, next: nat)
    requires it <= |s|
    ensures it == |s| ==> c == 0 && next == it
    ensures it < |s| && c != INVALID ==> Scalar(c) && Utf8Of(c) <= s[it..] && next == it + |Utf8Of(c)|
    ensures it < |s| && c == INVALID ==> Unreadable(s[it..]) && it < next <= |s|
  {
    if it == |s| { return 0, it; }
    var b := s[it];
    next := it + 1;
    if b < 0x80 {
      assert Utf8Of(b) == [b] && s[it..][0] == b;
      return b, next;
    }
    var lead, additionalBytes;
    lead, c, additionalBytes := ReadLead(b);
    if !lead {
      NoLead(s[it..]);
      return INVALID, next;
    }
    ghost var n, t := additionalBytes + 1, s[it..];
    var i := 0;
    while i < additionalBytes
      invariant 0 <= i <= additionalBytes && next == it + 1 + i <= |s|
      invariant c == Partial(t, n, i + 1)
      invariant forall k :: 1 <= k <= i ==> Continuation(t[k])
    {
      if next == |s| {
        NotReadable(t, n, i + 1);
        return INVALID, next;
      }
      assert t[i + 1] == s[next];
      var continues;
      continues, c := ReadMore(c, s[next]);
      next := next + 1;
      if !continues {
        NotReadable(t, n, i + 1);
        return INVALID, next;
      }
      i := i + 1;
    }
    c := Checked(t, c, additionalBytes);
  }

  /** Refuses what is too long for its value, surrogates, and what is out of range. */
  method Checked(ghost s: seq<byte>, c: nat, additionalBytes: nat) returns (r: nat)
    requires 1 <= additionalBytes <= 3 && additionalBytes < |s| && Shaped(s[..additionalBytes + 1])
    requires c == Partial(s, additionalBytes + 1, additionalBytes + 1)
    ensures r != INVALID ==> Scalar(r) && Utf8Of(r) <= s && |Utf8Of(r)| == additionalBytes + 1
    ensures r == INVALID ==> Unreadable(s)
  {
    PartialWhole(s, additionalBytes + 1);
    Reassembled(s[..additionalBytes + 1]);
    if c < (if additionalBytes == 1 then 0x80 else if additionalBytes == 2 then 0x800 else 0x1_0000)
       || 0xd800 <= c <= 0xdfff || c > 0x10_ffff {
      NotReadable(s, additionalBytes + 1, additionalBytes + 1);
      return INVALID;
    }
    return c;
  }

  // ----- writing

  /** One element more, if there is room; all is what is being written from start on. */
  method Put<E>(dst: array<E>, start: nat, length: nat, dstSize: nat, x: E, ghost all: seq<E>) returns (ok: bool)
    requires start + dstSize <= dst.Length && length <= dstSize && length < |all| && all[length] == x
    requires dst[start..start + length] == all[..length]
    modifies dst
    ensures ok <==> length < dstSize
    ensures ok ==> dst[start..start + length + 1] == all[..length + 1]
    ensures !ok ==> dst[..] == old(dst[..])
    ensures dst[..start] == old(dst[..start]) && dst[start + dstSize..] == old(dst[start + dstSize..])
  {
    if length >= dstSize { return false; }
    dst[start + length] := x;
    assert all[..length + 1] == all[..length] + [x];
    return true;
  }

  /** A continuation byte, as a mask and an or write it. */
  lemma ContinuationMask(x: nat)
    ensures BitOr(BitAnd(x, 0x3f), 0x80) == 0x80 + x % 0x40
  {
    Powers();
    BitAndLower(x, SIX);
    OrAbove(x % 0x40, 2, SIX);
  }

  lemma LeadMask(x: nat)
    ensures x < 0x20 ==> BitOr(x, 0xc0) == 0xc0 + x
    ensures x < 0x10 ==> BitOr(x, 0xe0) == 0xe0 + x
    ensures x < 8 ==> BitOr(x, 0xf0) == 0xf0 + x
  {
    Powers();
    if x < 0x20 { OrAbove(x, 6, FIVE); }
    if x < 0x10 { OrAbove(x, 14, FOUR); }
    if x < 8 { OrAbove(x, 30, THREE); }
  }

  lemma OrAbove(x: nat, q: nat, bits: nat)
    requires x < Pow2(bits)
    ensures BitOr(x, q * Pow2(bits)) == q * Pow2(bits) + x
  {
    BitOrCommutes(x, q * Pow2(bits));
    BitOrDisjoint(q, x, bits);
  }

  lemma {:induction false} BitOrCommutes(a: nat, b: nat)
    ensures BitOr(a, b) == BitOr(b, a)
    decreases a + b
  {
    if a > 0 || b > 0 { BitOrCommutes(a / 2, b / 2); }
  }

  /** The bytes before the last one: the lead, and perhaps more. */
  method PutLead(dst: array<byte>, start: nat, c: nat, dstSize: nat, ghost all: seq<byte>) returns (ok: bool, length: nat)
    requires start + dstSize <= dst.Length && Scalar(c) && c >= 0x80 && all == Utf8Of(c)
    modifies dst
    ensures dst[..start] == old(dst[..start]) && dst[start + dstSize..] == old(dst[start + dstSize..])
    ensures ok <==> |all| - 1 <= dstSize
    ensures length == (if ok then |all| - 1 else dstSize) && dst[start..start + length] == all[..length]
  {
    var d := c / 0x40;
    var e := d / 0x40;
    LeadBytes(c, d, e);
    var first := if c < 0x800 then BitOr(d, 0xc0) else if c < 0x1_0000 then BitOr(e, 0xe0) else BitOr(e / 0x40, 0xf0);
    ok := Put(dst, start, 0, dstSize, first, all);
    if !ok { return false, 0; }
    if c < 0x800 { return true, 1; }
    if c >= 0x1_0000 {
      ok := Put(dst, start, 1, dstSize, BitOr(BitAnd(e, 0x3f), 0x80), all);
      if !ok { return false, 1; }
    }
    length := if c >= 0x1_0000 then 2 else 1;
    ok := Put(dst, start, length, dstSize, BitOr(BitAnd(d, 0x3f), 0x80), all);
    return ok, if ok then length + 1 else length;
  }

  lemma LeadBytes(c: nat, d: nat, e: nat)
    requires Scalar(c) && c >= 0x80 && d == c / 0x40 && e == d / 0x40
    ensures var all := Utf8Of(c);
      && all[0] == (if c < 0x800 then BitOr(d, 0xc0) else if c < 0x1_0000 then BitOr(e, 0xe0) else BitOr(e / 0x40, 0xf0))
      && |all| == (if c < 0x800 then 2 else if c < 0x1_0000 then 3 else 4)
      && (c >= 0x800 ==> all[|all| - 2] == BitOr(BitAnd(d, 0x3f), 0x80))
      && (c >= 0x1_0000 ==> all[1] == BitOr(BitAnd(e, 0x3f), 0x80))
  {
    LeadMask(d);
    LeadMask(e);
    LeadMask(e / 0x40);
    ContinuationMask(d);
    ContinuationMask(e);
  }

  method PutUtf8(dst: array<byte>, start: nat, c: nat, dstSize: nat) returns (r: Status, length: nat)
    requires start + dstSize <= dst.Length
    modifies dst
    ensures dst[..start] == old(dst[..start]) && dst[start + dstSize..] == old(dst[start + dstSize..])
    ensures r == (if !Scalar(c) then INVALID_STRING else if |Utf8Of(c)| <= dstSize then OK else INSUFFICIENT_SPACE)
    ensures !Scalar(c) ==> length == 0 && dst[..] == old(dst[..])
    ensures Scalar(c) ==>
      && length == (if |Utf8Of(c)| <= dstSize then |Utf8Of(c)| else dstSize)
      && dst[start..start + length] == Utf8Of(c)[..length]
  {
    if 0xd800 <= c <= 0xdfff { return INVALID_STRING, 0; }
    if c > 0x10_ffff { return INVALID_STRING, 0; }
    ghost var all := Utf8Of(c);
    if c < 0x80 {
      var fits := Put(dst, start, 0, dstSize, c, all);
      return if fits then OK else INSUFFICIENT_SPACE, if fits then 1 else 0;
    }
    var ok;
    ok, length := PutLead(dst, start, c, dstSize, all);
    if !ok { return INSUFFICIENT_SPACE, length; }
    ContinuationMask(c);
    ok := Put(dst, start, length, dstSize, BitOr(BitAnd(c, 0x3f), 0x80), all);
    if !ok { return INSUFFICIENT_SPACE, length; }
    return OK, length + 1;
  }

  // ----- the conversions

  const TEN: nat := 10

  lemma TenBits(x: nat)
    ensures BitAnd(x, 0x3ff) == x % 0x400
  {
    assert Pow2(5) == 0x20;
    assert Pow2(TEN) == 0x400;
    BitAndLower(x, TEN);
  }

  /** One code point more on a text, in both encodings. */
  lemma OneMore(cs: seq<nat>, c: nat)
    requires Text(cs) && Scalar(c) && c != 0
    ensures Text(cs + [c]) && Utf8(cs + [c]) == Utf8(cs) + Utf8Of(c) && Utf16(cs + [c]) == Utf16(cs) + Utf16Of(c)
  {
    Utf8Append(cs, c);
    Utf16Append(cs, c);
  }

  /** One or two units of UTF-16; what did not fit is not counted. */
  method PutUtf16(dst: array<char16>, c: nat, length: nat, dstSize: nat, ghost before: seq<char16>) returns (ok: bool, newLength: nat)
    requires dstSize <= dst.Length && length <= dstSize && Scalar(c) && dst[..length] == before
    modifies dst
    ensures dst[dstSize..] == old(dst[dstSize..])
    ensures ok <==> length + |Utf16Of(c)| <= dstSize
    ensures ok ==> newLength == length + |Utf16Of(c)| && dst[..newLength] == before + Utf16Of(c)
    ensures !ok ==> newLength == dstSize
  {
    ghost var all := before + Utf16Of(c);
    newLength := length;
    if c > 0xffff {
      TenBits(c);
      ok := Put(dst, 0, newLength, dstSize, 0xd7c0 + c / 0x400, all);
      if !ok { return; }
      newLength := newLength + 1;
      ok := Put(dst, 0, newLength, dstSize, 0xdc00 + BitAnd(c, 0x3ff), all);
    } else {
      ok := Put(dst, 0, newLength, dstSize, c, all);
    }
    if ok { newLength := newLength + 1; }
  }

  /** After the nul, what was read is the whole text. */
  lemma ReadAll8(cs: seq<nat>, src: seq<byte>)
    requires Text(cs) && Utf8(cs) <= src && |Utf8(cs)| < |src| && src[|Utf8(cs)|] == 0
    ensures Says8(src, cs)
  {
  }

  lemma ReadAll16(cs: seq<nat>, src: seq<char16>)
    requires Text(cs) && Utf16(cs) <= src && |Utf16(cs)| < |src| && src[|Utf16(cs)|] == 0
    ensures Says16(src, cs)
  {
  }

  method Utf8ToUtf16(dst: array<char16>, dstSize: nat, src: seq<byte>) returns (r: Status, length: nat, ghost cs: seq<nat>)
    requires dstSize <= dst.Length && src != [] && src[|src| - 1] == 0
    modifies dst
    ensures dst[dstSize..] == old(dst[dstSize..])
    ensures r == OK ==> Says8(src, cs) && length == |Utf16(cs)| < dstSize && dst[..length + 1] == Utf16(cs) + [0]
    ensures r == INVALID_STRING ==> Stuck8(src, cs) && length == |Utf16(cs)| <= dstSize && dst[..length] == Utf16(cs)
    ensures r == INSUFFICIENT_SPACE ==> TooLongFor16(src, cs, dstSize) && length == dstSize
  {
    length, cs := 0, [];
    var it := 0;
    while true
      invariant Text(cs) && it == |Utf8(cs)| < |src| && Utf8(cs) <= src
      invariant length == |Utf16(cs)| <= dstSize && dst[..length] == Utf16(cs)
      invariant dst[dstSize..] == old(dst[dstSize..])
      decreases |src| - it
    {
      var c, next := NextUtf8(src, it);
      if c == INVALID {
        return INVALID_STRING, length, cs;
      }
      if c == 0 { break; }
      OneMore(cs, c);
      NotBeyondNul8(cs, c, src);
      var ok;
      ok, length := PutUtf16(dst, c, length, dstSize, Utf16(cs));
      if !ok {
        return INSUFFICIENT_SPACE, length, cs + [c];
      }
      it := next;
      cs := cs + [c];
    }
    assert src[it] == 0;
    ReadAll8(cs, src);
    var ok := Put(dst, 0, length, dstSize, 0, Utf16(cs) + [0]);
    if !ok { return INSUFFICIENT_SPACE, length, cs; }
    return OK, length, cs;
  }

  /** A character that is read does not reach over the nul at the end. */
  lemma NotBeyondNul8(cs: seq<nat>, c: nat, src: seq<byte>)
    requires Text(cs) && Utf8(cs) <= src && Scalar(c) && c != 0 && Utf8Of(c) <= src[|Utf8(cs)|..]
    requires src != [] && src[|src| - 1] == 0
    ensures Text(cs + [c]) && Utf8(cs + [c]) <= src && |Utf8(cs + [c])| < |src|
  {
    OneMore(cs, c);
    NoNul8(cs + [c]);
    var a := Utf8(cs + [c]);
    assert a <= src && |a| > 0 && a[|a| - 1] in a;
  }

  /** Reads one code point of UTF-16 that is not the nul; None if it begins with no scalar value. */
  method Next16(src: seq<char16>, it: nat) returns (valid: bool, c: nat, next: nat)
    requires it < |src| && src[it] != 0 && src[|src| - 1] == 0
    ensures valid ==> Scalar(c) && c != 0 && Utf16Of(c) <= src[it..] && next == it + |Utf16Of(c)|
    ensures !valid ==> Unreadable16(src[it..])
  {
    c := src[it];
    next := it + 1;
    if 0xd800 <= c <= 0xdbff {
      var trail := src[next];
      next := next + 1;
      if trail < 0xdc00 || trail > 0xdfff {
        Unpaired(src[it..]);
        return false, c, next;
      }
      Paired(c, trail);
      c := c * 0x400 + trail + 0x1_0000 - 0xd800 * 0x400 - 0xdc00;
      assert src[it..][1] == trail;
    } else if 0xdc00 <= c <= 0xdfff {
      Unpaired(src[it..]);
      return false, c, next;
    }
    valid := true;
  }

  /** Two surrogates are a code point beyond the first plane (section 2.2 of RFC 2781). */
  lemma Paired(lead: nat, trail: nat)
    requires 0xd800 <= lead <= 0xdbff && 0xdc00 <= trail <= 0xdfff
    ensures var c := lead * 0x400 + trail + 0x1_0000 - 0xd800 * 0x400 - 0xdc00;
      0x1_0000 <= c <= 0x10_ffff && Utf16Of(c) == [lead, trail]
  {
    var c := lead * 0x400 + trail + 0x1_0000 - 0xd800 * 0x400 - 0xdc00;
    DivModUnique(c, 0x400, lead - 0xd7c0, trail - 0xdc00);
  }

  lemma Unpaired(s: seq<char16>)
    requires s != [] && 0xd800 <= s[0] <= 0xdfff
    requires s[0] <= 0xdbff ==> |s| > 1 && !(0xdc00 <= s[1] <= 0xdfff)
    ensures Unreadable16(s)
  {
    forall d | Scalar(d)
      ensures !(Utf16Of(d) <= s)
    {
      if d >= 0x1_0000 {
        assert 0xd800 <= Utf16Of(d)[0] <= 0xdbff && 0xdc00 <= Utf16Of(d)[1] <= 0xdfff;
      }
    }
  }

  lemma NotBeyondNul16(cs: seq<nat>, c: nat, src: seq<char16>)
    requires Text(cs) && Utf16(cs) <= src && Scalar(c) && c != 0 && Utf16Of(c) <= src[|Utf16(cs)|..]
    requires src != [] && src[|src| - 1] == 0
    ensures Text(cs + [c]) && Utf16(cs + [c]) <= src && |Utf16(cs + [c])| < |src|
  {
    OneMore(cs, c);
    NoNul16(cs + [c]);
    var a := Utf16(cs + [c]);
    assert a <= src && |a| > 0 && a[|a| - 1] in a;
  }

  /** The first branch of utf16toutf8 for ASCII does what putUtf8 does for it. */
  method PutCodePoint(dst: array<byte>, c: nat, length: nat, dstSize: nat, ghost before: seq<byte>) returns (ok: bool, newLength: nat)
    requires dstSize <= dst.Length && length <= dstSize && Scalar(c) && dst[..length] == before
    modifies dst
    ensures dst[dstSize..] == old(dst[dstSize..])
    ensures ok <==> length + |Utf8Of(c)| <= dstSize
    ensures ok ==> newLength == length + |Utf8Of(c)| && dst[..newLength] == before + Utf8Of(c)
    ensures !ok ==> newLength == dstSize
  {
    if c < 0x80 {
      ok := Put(dst, 0, length, dstSize, c, before + Utf8Of(c));
      return ok, if ok then length + 1 else length;
    }
    var status, put := PutUtf8(dst, length, c, dstSize - length);
    newLength := length + put;
    ok := status == OK;
    if ok { assert dst[..newLength] == dst[..length] + dst[length..newLength]; }
  }

  method Utf16ToUtf8(dst: array<byte>, dstSize: nat, src: seq<char16>) returns (r: Status, length: nat, ghost cs: seq<nat>)
    requires dstSize <= dst.Length && src != [] && src[|src| - 1] == 0
    modifies dst
    ensures dst[dstSize..] == old(dst[dstSize..])
    ensures r == OK ==> Says16(src, cs) && length == |Utf8(cs)| < dstSize && dst[..length + 1] == Utf8(cs) + [0]
    ensures r == INVALID_STRING ==> Stuck16(src, cs) && length == |Utf8(cs)| <= dstSize && dst[..length] == Utf8(cs)
    ensures r == INSUFFICIENT_SPACE ==> TooLongFor8(src, cs, dstSize) && length == dstSize
  {
    length, cs := 0, [];
    var it := 0;
    while src[it] != 0
      invariant Text(cs) && it == |Utf16(cs)| < |src| && Utf16(cs) <= src
      invariant length == |Utf8(cs)| <= dstSize && dst[..length] == Utf8(cs)
      invariant dst[dstSize..] == old(dst[dstSize..])
      decreases |src| - it
    {
      var valid, c, next := Next16(src, it);
      if !valid {
        return INVALID_STRING, length, cs;
      }
      OneMore(cs, c);
      NotBeyondNul16(cs, c, src);
      var ok;
      ok, length := PutCodePoint(dst, c, length, dstSize, Utf8(cs));
      if !ok {
        return INSUFFICIENT_SPACE, length, cs + [c];
      }
      it := next;
      cs := cs + [c];
    }
    ReadAll16(cs, src);
    var ok := Put(dst, 0, length, dstSize, 0, Utf8(cs) + [0]);
    if !ok { return INSUFFICIENT_SPACE, length, cs; }
    return OK, length, cs;
  }

  /**
   * utf8toutf16 and then utf16toutf8, given enough space, is the identity on every text: both
   * succeed, and the bytes are those of the source up to its first nul.
   */
  method ThereAndBack(src: seq<byte>, wide: array<char16>, wideSize: nat, back: array<byte>, backSize: nat, ghost cs: seq<nat>)
    returns (there: Status, andBack: Status, length: nat)
    requires src != [] && src[|src| - 1] == 0 && Says8(src, cs)
    requires |Utf16(cs)| < wideSize <= wide.Length && |Utf8(cs)| < backSize <= back.Length
    modifies wide, back
    ensures there == OK && andBack == OK && length == |Utf8(cs)| < |src|
    ensures back[..length + 1] == src[..length + 1] && src[length] == 0 && 0 !in src[..length]
  {
    var wideLength;
    ghost var ds, es;
    there, wideLength, ds := Utf8ToUtf16(wide, wideSize, src);
    Succeeds8(src, cs, ds, wideSize);
    var w := wide[..wideLength + 1];
    andBack, length, es := Utf16ToUtf8(back, backSize, w);
    Succeeds16(w, cs, es, backSize);
    NoNul8(cs);
  }

  /** The same from UTF-16. */
  method BackAndThere(src: seq<char16>, narrow: array<byte>, narrowSize: nat, back: array<char16>, backSize: nat, ghost cs: seq<nat>)
    returns (there: Status, andBack: Status, length: nat)
    requires src != [] && src[|src| - 1] == 0 && Says16(src, cs)
    requires |Utf8(cs)| < narrowSize <= narrow.Length && |Utf16(cs)| < backSize <= back.Length
    modifies narrow, back
    ensures there == OK && andBack == OK && length == |Utf16(cs)| < |src|
    ensures back[..length + 1] == src[..length + 1] && src[length] == 0 && 0 !in src[..length]
  {
    var narrowLength;
    ghost var ds, es;
    there, narrowLength, ds := Utf16ToUtf8(narrow, narrowSize, src);
    Succeeds16(src, cs, ds, narrowSize);
    var n := narrow[..narrowLength + 1];
    andBack, length, es := Utf8ToUtf16(back, backSize, n);
    Succeeds8(n, cs, es, backSize);
    NoNul16(cs);
  }

  /** Of a text that fits, no outcome but success is possible. */
  lemma Succeeds8(src: seq<byte>, cs: seq<nat>, ds: seq<nat>, size: nat)
    requires Says8(src, cs) && |Utf16(cs)| < size
    ensures !Stuck8(src, ds) && !TooLongFor16(src, ds, size) && (Says8(src, ds) ==> ds == cs)
  {
    OneOutcome8(src, cs, ds, size);
    if Says8(src, ds) { TextUnique8(cs, ds, src); }
  }

  lemma Succeeds16(src: seq<char16>, cs: seq<nat>, ds: seq<nat>, size: nat)
    requires Says16(src, cs) && |Utf8(cs)| < size
    ensures !Stuck16(src, ds) && !TooLongFor8(src, ds, size) && (Says16(src, ds) ==> ds == cs)
  {
    OneOutcome16(src, cs, ds, size);
    if Says16(src, ds) { TextUnique16(cs, ds, src); }
  }
}
