// Code points and their two encodings (unicode.h, unicode.cpp): what a string of code
// points looks like in UTF-8 (RFC 3629) and in UTF-16 (RFC 2781), and that neither
// can be read in two ways.

module UnicodeText {

  type byte = x: nat | x < 0x100

  type char16 = x: nat | x < 0x1_0000

  /** A code point that may be encoded: neither a surrogate nor out of range (section 3 of RFC 3629). */
  predicate Scalar(c: nat)
  {
    c <= 0x10_ffff && !(0xd800 <= c <= 0xdfff)
  }

  function Utf8Of(c: nat): (r: seq<byte>)
    requires Scalar(c)
    ensures 1 <= |r| <= 4
  {
    var d := c / 0x40;
    var e := d / 0x40;
    var f := e / 0x40;
    if c < 0x80 then [c]
    else if c < 0x800 then [0xc0 + d, 0x80 + c % 0x40]
    else if c < 0x1_0000 then [0xe0 + e, 0x80 + d % 0x40, 0x80 + c % 0x40]
    else [0xf0 + f, 0x80 + e % 0x40, 0x80 + d % 0x40, 0x80 + c % 0x40]
  }

  /** Beyond the first plane a pair of surrogates (section 2.1 of RFC 2781). */
  function Utf16Of(c: nat): (r: seq<char16>)
    requires Scalar(c)
    ensures 1 <= |r| <= 2
  {
    if c < 0x1_0000 then [c] else [0xd7c0 + c / 0x400, 0xdc00 + c % 0x400]
  }

  /** Text without the nul that ends it. */
  predicate Text(cs: seq<nat>)
  {
    forall c :: c in cs ==> Scalar(c) && c != 0
  }

  function Utf8(cs: seq<nat>): seq<byte>
    requires Text(cs)
  {
    if cs == [] then [] else Utf8Of(cs[0]) + Utf8(cs[1..])
  }

  function Utf16(cs: seq<nat>): seq<char16>
    requires Text(cs)
  {
    if cs == [] then [] else Utf16Of(cs[0]) + Utf16(cs[1..])
  }

  lemma {:induction false} Utf8Append(cs: seq<nat>, c: nat)
    requires Text(cs) && Scalar(c) && c != 0
    ensures Text(cs + [c]) && Utf8(cs + [c]) == Utf8(cs) + Utf8Of(c)
  {
    if cs == [] {
      assert cs + [c] == [c] && Utf8([c]) == Utf8Of(c) + Utf8([]);
    } else {
      assert (cs + [c])[1..] == cs[1..] + [c];
      Utf8Append(cs[1..], c);
    }
  }

  lemma {:induction false} Utf16Append(cs: seq<nat>, c: nat)
    requires Text(cs) && Scalar(c) && c != 0
    ensures Text(cs + [c]) && Utf16(cs + [c]) == Utf16(cs) + Utf16Of(c)
  {
    if cs == [] {
      assert cs + [c] == [c] && Utf16([c]) == Utf16Of(c) + Utf16([]);
    } else {
      assert (cs + [c])[1..] == cs[1..] + [c];
      Utf16Append(cs[1..], c);
    }
  }

  /** The first byte says how many there are. */
  lemma Utf8Lead(c: nat)
    requires Scalar(c)
    ensures var r := Utf8Of(c);
      && (|r| == 1 <==> r[0] < 0x80) && (|r| == 2 <==> 0xc0 <= r[0] < 0xe0)
      && (|r| == 3 <==> 0xe0 <= r[0] < 0xf0) && (|r| == 4 <==> 0xf0 <= r[0] < 0xf8)
    ensures forall i :: 1 <= i < |Utf8Of(c)| ==> 0x80 <= Utf8Of(c)[i] < 0xc0
    ensures c != 0 ==> 0 !in Utf8Of(c)
  {
  }

  /** Six more bits from a continuation byte. */
  function More(c: nat, next: nat): nat
  {
    c * 0x40 + next % 0x40
  }

  /** The code point that lead bits and continuation bytes stand for. */
  function Assembled(r: seq<byte>): nat
    requires 1 <= |r| <= 4
  {
    var lead: nat := r[0];
    if |r| == 1 then lead
    else if |r| == 2 then More(lead % 0x20, r[1])
    else if |r| == 3 then More(More(lead % 0x10, r[1]), r[2])
    else More(More(More(lead % 8, r[1]), r[2]), r[3])
  }

  lemma MoreBits(c: nat)
    ensures (0x80 + c % 0x40) % 0x40 == c % 0x40 && More(c / 0x40, 0x80 + c % 0x40) == c
  {
  }

  lemma LeadBits(x: nat)
    ensures x < 0x20 ==> (0xc0 + x) % 0x20 == x
    ensures x < 0x10 ==> (0xe0 + x) % 0x10 == x
    ensures x < 8 ==> (0xf0 + x) % 8 == x
  {
  }

  lemma AssembledUtf8(c: nat)
    requires Scalar(c)
    ensures Assembled(Utf8Of(c)) == c
  {
    var d := c / 0x40;
    var e := d / 0x40;
    var f := e / 0x40;
    MoreBits(c);
    MoreBits(d);
    MoreBits(e);
    LeadBits(d);
    LeadBits(e);
    LeadBits(f);
  }

  /** One code point's bytes are never the beginning of another's. */
  lemma Utf8Unique(c: nat, d: nat, s: seq<byte>)
    requires Scalar(c) && Scalar(d) && Utf8Of(c) <= s && Utf8Of(d) <= s
    ensures c == d
  {
    Utf8Lead(c);
    Utf8Lead(d);
    AssembledUtf8(c);
    AssembledUtf8(d);
    assert Utf8Of(c)[0] == s[0] == Utf8Of(d)[0];
    assert Utf8Of(c) == s[..|Utf8Of(c)|] == Utf8Of(d);
  }

  lemma Utf16Unique(c: nat, d: nat, s: seq<char16>)
    requires Scalar(c) && Scalar(d) && Utf16Of(c) <= s && Utf16Of(d) <= s
    ensures c == d
  {
    assert Utf16Of(c)[0] == s[0] == Utf16Of(d)[0];
    if c >= 0x1_0000 && d >= 0x1_0000 {
      assert Utf16Of(c)[1] == s[1] == Utf16Of(d)[1];
    }
  }

  // ----- reading one code point

  /** A lead byte for n bytes, and a continuation byte (section 3 of RFC 3629). */
  predicate LeadOf(b: byte, n: nat)
  {
    (n == 1 && b < 0x80) || (n == 2 && 0xc0 <= b < 0xe0) || (n == 3 && 0xe0 <= b < 0xf0) || (n == 4 && 0xf0 <= b < 0xf8)
  }

  predicate Continuation(b: byte)
  {
    0x80 <= b < 0xc0
  }

  ghost predicate Shaped(r: seq<byte>)
  {
    1 <= |r| <= 4 && LeadOf(r[0], |r|) && forall i :: 1 <= i < |r| ==> Continuation(r[i])
  }

  /** The smallest code point that needs n bytes. */
  function Smallest(n: nat): nat
  {
    if n == 2 then 0x80 else if n == 3 then 0x800 else if n == 4 then 0x1_0000 else 0
  }

  lemma LeadBack(b: byte)
    ensures 0xc0 <= b < 0xe0 ==> 0xc0 + b % 0x20 == b
    ensures 0xe0 <= b < 0xf0 ==> 0xe0 + b % 0x10 == b
    ensures 0xf0 <= b < 0xf8 ==> 0xf0 + b % 8 == b
    ensures Continuation(b) ==> 0x80 + b % 0x40 == b
  {
  }

  lemma MoreBack(c: nat, next: nat)
    ensures More(c, next) / 0x40 == c && More(c, next) % 0x40 == next % 0x40
  {
  }

  /** Well shaped bytes are the encoding of what they stand for, unless that is too small for them or no code point. */
  lemma Reassembled(r: seq<byte>)
    requires Shaped(r)
    ensures var c := Assembled(r); Scalar(c) && c >= Smallest(|r|) ==> Utf8Of(c) == r
  {
    var c, lead: nat := Assembled(r), r[0];
    LeadBack(r[0]);
    if |r| == 2 {
      LeadBack(r[1]);
      MoreBack(lead % 0x20, r[1]);
    } else if |r| == 3 {
      LeadBack(r[1]);
      LeadBack(r[2]);
      MoreBack(lead % 0x10, r[1]);
      MoreBack(More(lead % 0x10, r[1]), r[2]);
    } else if |r| == 4 {
      LeadBack(r[1]);
      LeadBack(r[2]);
      LeadBack(r[3]);
      MoreBack(lead % 8, r[1]);
      MoreBack(More(lead % 8, r[1]), r[2]);
      MoreBack(More(More(lead % 8, r[1]), r[2]), r[3]);
    }
  }

  /** No code point begins here. */
  ghost predicate Unreadable(s: seq<byte>)
  {
    forall d :: Scalar(d) ==> !(Utf8Of(d) <= s)
  }

  lemma ShapeOf(d: nat)
    requires Scalar(d)
    ensures Shaped(Utf8Of(d)) && d >= Smallest(|Utf8Of(d)|)
  {
    Utf8Lead(d);
  }

  /** What the bytes say when a code point begins with them. */
  lemma ReadFacts(d: nat, s: seq<byte>)
    requires Scalar(d) && Utf8Of(d) <= s
    ensures var n := |Utf8Of(d)|;
      && LeadOf(s[0], n) && (forall i :: 1 <= i < n ==> Continuation(s[i]))
      && Assembled(s[..n]) == d && d >= Smallest(n)
  {
    ShapeOf(d);
    AssembledUtf8(d);
    var r := Utf8Of(d);
    assert r == s[..|r|] && r[0] == s[0];
    forall i | 1 <= i < |r|
      ensures Continuation(s[i])
    {
      assert s[i] == r[i];
    }
  }

  /** The lead byte fixes the length, so what fails to be read under it cannot be read at all. */
  lemma NotReadable(s: seq<byte>, n: nat, ok: nat)
    requires s != [] && LeadOf(s[0], n) && 1 <= n <= 4 && 1 <= ok <= n
    requires ok < n && ok < |s| ==> !Continuation(s[ok])
    requires ok == n ==> n <= |s| && (!Scalar(Assembled(s[..n])) || Assembled(s[..n]) < Smallest(n))
    requires ok < n ==> ok <= |s|
    ensures Unreadable(s)
  {
    forall d | Scalar(d)
      ensures !(Utf8Of(d) <= s)
    {
      if Utf8Of(d) <= s { ReadFacts(d, s); }
    }
  }

  lemma NoLead(s: seq<byte>)
    requires s != [] && forall n :: 1 <= n <= 4 ==> !LeadOf(s[0], n)
    ensures Unreadable(s)
  {
    forall d | Scalar(d)
      ensures !(Utf8Of(d) <= s)
    {
      if Utf8Of(d) <= s { ReadFacts(d, s); }
    }
  }

  // ----- whole strings

  /** s begins with the text, and the nul that ends it. */
  ghost predicate Says8(s: seq<byte>, cs: seq<nat>)
  {
    Text(cs) && Utf8(cs) + [0] <= s
  }

  ghost predicate Says16(s: seq<char16>, cs: seq<nat>)
  {
    Text(cs) && Utf16(cs) + [0] <= s
  }

  /** s begins with the text. */
  ghost predicate Reads8(s: seq<byte>, cs: seq<nat>)
  {
    Text(cs) && Utf8(cs) <= s
  }

  ghost predicate Reads16(s: seq<char16>, cs: seq<nat>)
  {
    Text(cs) && Utf16(cs) <= s
  }

  /** After the text, s goes on with what nobody can read. */
  ghost predicate Stuck8(s: seq<byte>, cs: seq<nat>)
  {
    Reads8(s, cs) && Unreadable(s[|Utf8(cs)|..])
  }

  ghost predicate Stuck16(s: seq<char16>, cs: seq<nat>)
  {
    Reads16(s, cs) && Unreadable16(s[|Utf16(cs)|..])
  }

  /** There is no room for the text in UTF-16, and for the nul if s ends there. */
  ghost predicate TooLongFor16(s: seq<byte>, cs: seq<nat>, size: nat)
  {
    Reads8(s, cs) && size < |Utf16(cs)| + (if Says8(s, cs) then 1 else 0)
  }

  ghost predicate TooLongFor8(s: seq<char16>, cs: seq<nat>, size: nat)
  {
    Reads16(s, cs) && size < |Utf8(cs)| + (if Says16(s, cs) then 1 else 0)
  }

  lemma {:induction false} NoNul8(cs: seq<nat>)
    requires Text(cs)
    ensures 0 !in Utf8(cs)
  {
    if cs != [] {
      Utf8Lead(cs[0]);
      NoNul8(cs[1..]);
      assert cs[0] in cs;
    }
  }

  lemma {:induction false} NoNul16(cs: seq<nat>)
    requires Text(cs)
    ensures 0 !in Utf16(cs)
  {
    if cs != [] {
      NoNul16(cs[1..]);
      assert cs[0] in cs;
    }
  }

  lemma LongerBy(a: seq<nat>, b: seq<nat>)
    requires a != [] && b != [] && a[0] == b[0] && b[1..] <= a[1..]
    ensures b <= a && a[|b|..] == a[1..][|b[1..]|..]
  {
    assert a == [a[0]] + a[1..] && b == [b[0]] + b[1..];
  }

  lemma PrefixSplit<E>(a: seq<E>, b: seq<E>, s: seq<E>)
    requires a + b <= s
    ensures a <= s && b <= s[|a|..]
  {
    assert a + b == s[..|a| + |b|];
    assert a == (a + b)[..|a|] && b == (a + b)[|a|..];
  }

  /** What has been read of a text is how the text begins, and the rest of it is still to be read. */
  lemma {:induction false} RestOf8(cs: seq<nat>, w: seq<nat>, s: seq<byte>)
    requires Text(cs) && Utf8(cs) <= s && Says8(s, w)
    ensures cs <= w && Says8(s[|Utf8(cs)|..], w[|cs|..])
    decreases |cs|
  {
    if cs == [] {
      assert s[0..] == s && w[0..] == w;
    } else {
      FirstOf8(cs, s);
      FirstSaid8(w, s);
      Utf8Unique(cs[0], w[0], s);
      var n := |Utf8Of(cs[0])|;
      RestOf8(cs[1..], w[1..], s[n..]);
      LongerBy(w, cs);
      TailOf8(cs, s);
    }
  }

  lemma FirstOf8(cs: seq<nat>, s: seq<byte>)
    requires Text(cs) && cs != [] && Utf8(cs) <= s
    ensures s[0] != 0 && Text(cs[1..]) && Utf8Of(cs[0]) <= s && Utf8(cs[1..]) <= s[|Utf8Of(cs[0])|..]
    ensures |Utf8(cs)| == |Utf8Of(cs[0])| + |Utf8(cs[1..])|
  {
    assert cs[0] in cs;
    PrefixSplit(Utf8Of(cs[0]), Utf8(cs[1..]), s);
  }

  lemma DropTwice<E>(s: seq<E>, i: nat, j: nat)
    requires i + j <= |s|
    ensures s[i..][j..] == s[i + j..]
  {
  }

  lemma TailOf8(cs: seq<nat>, s: seq<byte>)
    requires Reads8(s, cs) && cs != []
    ensures |Utf8Of(cs[0])| + |Utf8(cs[1..])| == |Utf8(cs)| <= |s|
    ensures s[|Utf8Of(cs[0])|..][|Utf8(cs[1..])|..] == s[|Utf8(cs)|..]
  {
    DropTwice(s, |Utf8Of(cs[0])|, |Utf8(cs[1..])|);
  }

  lemma NulFirst8(w: seq<nat>, s: seq<byte>)
    requires Says8(s, w) && w == []
    ensures s[0] == 0
  {
  }

  lemma FirstSaid8(w: seq<nat>, s: seq<byte>)
    requires Says8(s, w) && s[0] != 0
    ensures w != [] && Utf8Of(w[0]) <= s && Says8(s[|Utf8Of(w[0])|..], w[1..])
  {
    if w == [] {
      NulFirst8(w, s);
    } else {
      PrefixSplit(Utf8Of(w[0]), Utf8(w[1..]) + [0], s);
    }
  }

  lemma {:induction false} RestOf16(cs: seq<nat>, w: seq<nat>, s: seq<char16>)
    requires Text(cs) && Utf16(cs) <= s && Says16(s, w)
    ensures cs <= w && Says16(s[|Utf16(cs)|..], w[|cs|..])
    decreases |cs|
  {
    if cs == [] {
      assert s[0..] == s && w[0..] == w;
    } else {
      FirstOf16(cs, s);
      FirstSaid16(w, s);
      Utf16Unique(cs[0], w[0], s);
      var n := |Utf16Of(cs[0])|;
      RestOf16(cs[1..], w[1..], s[n..]);
      LongerBy(w, cs);
      TailOf16(cs, s);
    }
  }

  lemma FirstOf16(cs: seq<nat>, s: seq<char16>)
    requires Text(cs) && cs != [] && Utf16(cs) <= s
    ensures s[0] != 0 && Text(cs[1..]) && Utf16Of(cs[0]) <= s && Utf16(cs[1..]) <= s[|Utf16Of(cs[0])|..]
    ensures |Utf16(cs)| == |Utf16Of(cs[0])| + |Utf16(cs[1..])|
  {
    assert cs[0] in cs;
    PrefixSplit(Utf16Of(cs[0]), Utf16(cs[1..]), s);
  }

  lemma TailOf16(cs: seq<nat>, s: seq<char16>)
    requires Reads16(s, cs) && cs != []
    ensures |Utf16Of(cs[0])| + |Utf16(cs[1..])| == |Utf16(cs)| <= |s|
    ensures s[|Utf16Of(cs[0])|..][|Utf16(cs[1..])|..] == s[|Utf16(cs)|..]
  {
    DropTwice(s, |Utf16Of(cs[0])|, |Utf16(cs[1..])|);
  }

  lemma NulFirst16(w: seq<nat>, s: seq<char16>)
    requires Says16(s, w) && w == []
    ensures s[0] == 0
  {
  }

  lemma FirstSaid16(w: seq<nat>, s: seq<char16>)
    requires Says16(s, w) && s[0] != 0
    ensures w != [] && Utf16Of(w[0]) <= s && Says16(s[|Utf16Of(w[0])|..], w[1..])
  {
    if w == [] {
      NulFirst16(w, s);
    } else {
      PrefixSplit(Utf16Of(w[0]), Utf16(w[1..]) + [0], s);
    }
  }

  ghost predicate Unreadable16(s: seq<char16>)
  {
    forall d :: Scalar(d) ==> !(Utf16Of(d) <= s)
  }

  /** A string that cannot be read on from somewhere is no text. */
  lemma NoText8(cs: seq<nat>, w: seq<nat>, s: seq<byte>)
    requires Text(cs) && Utf8(cs) <= s && Unreadable(s[|Utf8(cs)|..])
    ensures !Says8(s, w)
  {
    if Says8(s, w) {
      RestOf8(cs, w, s);
      BeginsReadable8(s[|Utf8(cs)|..], w[|cs|..]);
    }
  }

  lemma BeginsReadable8(s: seq<byte>, w: seq<nat>)
    requires Says8(s, w)
    ensures !Unreadable(s)
  {
    if w == [] {
      assert Utf8Of(0) == [0] && s[0] == 0;
      assert Utf8Of(0) <= s;
    } else {
      assert Utf8Of(w[0]) <= s;
    }
  }

  lemma NoText16(cs: seq<nat>, w: seq<nat>, s: seq<char16>)
    requires Text(cs) && Utf16(cs) <= s && Unreadable16(s[|Utf16(cs)|..])
    ensures !Says16(s, w)
  {
    if Says16(s, w) {
      RestOf16(cs, w, s);
      BeginsReadable16(s[|Utf16(cs)|..], w[|cs|..]);
    }
  }

  lemma BeginsReadable16(s: seq<char16>, w: seq<nat>)
    requires Says16(s, w)
    ensures !Unreadable16(s)
  {
    if w == [] {
      assert Utf16Of(0) == [0] && s[0] == 0;
      assert Utf16Of(0) <= s;
    } else {
      assert Utf16Of(w[0]) <= s;
    }
  }

  /** The longer of two texts, one the beginning of the other, has the longer encoding. */
  lemma {:induction false} LongerText(a: seq<nat>, b: seq<nat>)
    requires Text(b) && a <= b
    ensures Text(a) && |Utf8(a)| <= |Utf8(b)| && |Utf16(a)| <= |Utf16(b)|
  {
    if a != [] {
      assert a[0] == b[0];
      LongerText(a[1..], b[1..]);
    }
  }

  /** All that can be read of s is part of what was read before s got unreadable. */
  lemma {:induction false} StuckLast8(a: seq<nat>, b: seq<nat>, s: seq<byte>)
    requires Stuck8(s, a) && Reads8(s, b)
    ensures b <= a && !Says8(s, b)
    decreases |b|
  {
    NoText8(a, b, s);
    if b != [] {
      FirstOf8(b, s);
      assert b[0] in b;
      if a != [] {
        FirstOf8(a, s);
        assert a[0] in a;
        Utf8Unique(a[0], b[0], s);
        var n := |Utf8Of(a[0])|;
        TailOf8(a, s);
        StuckLast8(a[1..], b[1..], s[n..]);
        LongerBy(a, b);
      }
    }
  }

  lemma {:induction false} StuckLast16(a: seq<nat>, b: seq<nat>, s: seq<char16>)
    requires Stuck16(s, a) && Reads16(s, b)
    ensures b <= a && !Says16(s, b)
    decreases |b|
  {
    NoText16(a, b, s);
    if b != [] {
      FirstOf16(b, s);
      assert b[0] in b;
      if a != [] {
        FirstOf16(a, s);
        assert a[0] in a;
        Utf16Unique(a[0], b[0], s);
        var n := |Utf16Of(a[0])|;
        TailOf16(a, s);
        StuckLast16(a[1..], b[1..], s[n..]);
        LongerBy(a, b);
      }
    }
  }

  /** A string is a text that fits, or gets unreadable after what fits, or has a beginning that does not fit, and only one of these. */
  lemma OneOutcome8(s: seq<byte>, a: seq<nat>, b: seq<nat>, size: nat)
    requires (Says8(s, a) || Stuck8(s, a)) && !TooLongFor16(s, a, size)
    ensures !TooLongFor16(s, b, size) && (Says8(s, a) ==> !Stuck8(s, b))
  {
    if Says8(s, a) {
      if Reads8(s, b) { RestOf8(b, a, s); }
      if Stuck8(s, b) { NoText8(b, a, s); }
      if Says8(s, b) { TextUnique8(a, b, s); }
    } else if Reads8(s, b) {
      StuckLast8(a, b, s);
    }
    if Reads8(s, b) { LongerText(b, a); }
  }

  lemma OneOutcome16(s: seq<char16>, a: seq<nat>, b: seq<nat>, size: nat)
    requires (Says16(s, a) || Stuck16(s, a)) && !TooLongFor8(s, a, size)
    ensures !TooLongFor8(s, b, size) && (Says16(s, a) ==> !Stuck16(s, b))
  {
    if Says16(s, a) {
      if Reads16(s, b) { RestOf16(b, a, s); }
      if Stuck16(s, b) { NoText16(b, a, s); }
      if Says16(s, b) { TextUnique16(a, b, s); }
    } else if Reads16(s, b) {
      StuckLast16(a, b, s);
    }
    if Reads16(s, b) { LongerText(b, a); }
  }

  /** Text with the nul that ends it can be read in one way only. */
  lemma TextUnique8(a: seq<nat>, b: seq<nat>, s: seq<byte>)
    requires Says8(s, a) && Says8(s, b)
    ensures a == b
  {
    PrefixSplit(Utf8(a), [0], s);
    PrefixSplit(Utf8(b), [0], s);
    RestOf8(a, b, s);
    RestOf8(b, a, s);
  }

  lemma TextUnique16(a: seq<nat>, b: seq<nat>, s: seq<char16>)
    requires Says16(s, a) && Says16(s, b)
    ensures a == b
  {
    PrefixSplit(Utf16(a), [0], s);
    PrefixSplit(Utf16(b), [0], s);
    RestOf16(a, b, s);
    RestOf16(b, a, s);
  }
}
