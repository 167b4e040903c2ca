/** The user identifier of both services is a UUID, and the auth-service
    puts `user.id.to_string()` into the `sub` claim. This module models that
    conversion: the uuid crate's hyphenated, lower-case hexadecimal form
    (8-4-4-4-12 digits), and proves it injective, so that the subject of a
    token names exactly one user. */
module Uuids {
  import opened Common

  type UuidBytes = s: seq<byte> | |s| == 16 witness seq(16, _ => 0)

  datatype Uuid = Uuid(bytes: UuidBytes)

  const HexDigits: string := "0123456789abcdef"

  function HexDigit(n: nat): (c: char)
    requires n < 16
    ensures c in HexDigits
  {
    HexDigits[n]
  }

  /** The two lower-case hexadecimal digits of each byte, most significant first. */
  function Hex(bs: seq<byte>): (s: string)
    ensures |s| == 2 * |bs|
    ensures forall i :: 0 <= i < |bs| ==>
      s[2 * i] == HexDigit(bs[i] / 16) && s[2 * i + 1] == HexDigit(bs[i] % 16)
  {
    var s := seq(2 * |bs|, j requires 0 <= j < 2 * |bs| =>
      if j % 2 == 0 then HexDigit(bs[j / 2] / 16) else HexDigit(bs[j / 2] % 16));
    assert forall i :: 0 <= i < |bs| ==> (2 * i) / 2 == i && (2 * i + 1) / 2 == i && (2 * i) % 2 == 0 && (2 * i + 1) % 2 == 1;
    s
  }

  /** `Uuid::to_string`: the hyphenated form, 36 characters long. */
  function UuidToString(u: Uuid): (s: string)
    ensures |s| == 36
  {
    var b := u.bytes;
    Hex(b[0..4]) + "-" + Hex(b[4..6]) + "-" + Hex(b[6..8]) + "-" + Hex(b[8..10]) + "-" + Hex(b[10..16])
  }

  /** `front`, a hyphen, then `g`: where each part sits in the joined text. */
  lemma JoinAt(front: string, g: string)
    ensures var j := front + "-" + g;
      && |j| == |front| + 1 + |g| && j[|front|] == '-'
      && j[..|front|] == front && j[|front| + 1..] == g
  {
    var j := front + "-" + g;
    assert j[..|front|] == front;
    assert j[|front| + 1..] == g;
  }

  /** Five groups of 8, 4, 4, 4 and 12 characters joined by hyphens. */
  lemma Layout(g0: string, g1: string, g2: string, g3: string, g4: string)
    requires |g0| == 8 && |g1| == 4 && |g2| == 4 && |g3| == 4 && |g4| == 12
    ensures var s := g0 + "-" + g1 + "-" + g2 + "-" + g3 + "-" + g4;
      && |s| == 36 && s[8] == '-' && s[13] == '-' && s[18] == '-' && s[23] == '-'
      && s[0..8] == g0 && s[9..13] == g1 && s[14..18] == g2 && s[19..23] == g3 && s[24..36] == g4
  {
    var f1 := g0 + "-" + g1;
    var f2 := f1 + "-" + g2;
    var f3 := f2 + "-" + g3;
    var s := f3 + "-" + g4;
    JoinAt(g0, g1);
    JoinAt(f1, g2);
    JoinAt(f2, g3);
    JoinAt(f3, g4);
    PrefixSlice(s, f3, 19, 23);
    PrefixSlice(s, f3, 14, 19);
    PrefixSlice(f3, f2, 14, 18);
    PrefixSlice(s, f3, 9, 18);
    PrefixSlice(f3, f2, 9, 13);
    PrefixSlice(f2, f1, 9, 13);
    PrefixSlice(s, f3, 0, 18);
    PrefixSlice(f3, f2, 0, 13);
    PrefixSlice(f2, f1, 0, 8);
    PrefixSlice(f1, g0 + "-", 0, 8);
  }

  /** The text is five groups of hexadecimal digits for 4, 2, 2, 2 and 6
      bytes, separated by hyphens at positions 8, 13, 18 and 23. */
  lemma UuidGroups(u: Uuid)
    ensures var s, b := UuidToString(u), u.bytes;
      && s[8] == '-' && s[13] == '-' && s[18] == '-' && s[23] == '-'
      && s[0..8] == Hex(b[0..4]) && s[9..13] == Hex(b[4..6]) && s[14..18] == Hex(b[6..8])
      && s[19..23] == Hex(b[8..10]) && s[24..36] == Hex(b[10..16])
  {
    var b := u.bytes;
    Layout(Hex(b[0..4]), Hex(b[4..6]), Hex(b[6..8]), Hex(b[8..10]), Hex(b[10..16]));
  }

  /** A slice inside a prefix is the same slice of the prefix. */
  lemma PrefixSlice(s: string, p: string, i: nat, j: nat)
    requires i <= j <= |p| <= |s| && s[..|p|] == p
    ensures s[i..j] == p[i..j] && (j < |p| ==> s[j] == p[j])
  {
    forall k | i <= k < j ensures s[k] == p[k] {
      assert s[..|p|][k] == s[k];
    }
    if j < |p| { assert s[..|p|][j] == s[j]; }
  }

  lemma HexDigitInjective(m: nat, n: nat)
    requires m < 16 && n < 16 && HexDigit(m) == HexDigit(n)
    ensures m == n
  {
  }

  /** Equal digit strings come from equal byte strings. */
  lemma HexInjective(a: seq<byte>, b: seq<byte>)
    requires |a| == |b| && Hex(a) == Hex(b)
    ensures a == b
  {
    forall i | 0 <= i < |a| ensures a[i] == b[i] {
      assert Hex(a)[2 * i] == Hex(b)[2 * i] && Hex(a)[2 * i + 1] == Hex(b)[2 * i + 1];
      HexDigitInjective(a[i] / 16, b[i] / 16);
      HexDigitInjective(a[i] % 16, b[i] % 16);
    }
  }

  /** A UUID's bytes are the concatenation of its five groups. */
  lemma GroupsCover(b: UuidBytes)
    ensures b == b[0..4] + b[4..6] + b[6..8] + b[8..10] + b[10..16]
  {
  }

  /** Distinct identifiers have distinct texts, so a `sub` claim built from
      `to_string` identifies one user. */
  lemma UuidToStringInjective(u: Uuid, v: Uuid)
    ensures UuidToString(u) == UuidToString(v) ==> u == v
  {
    if UuidToString(u) != UuidToString(v) { return; }
    var a, b := u.bytes, v.bytes;
    UuidGroups(u);
    UuidGroups(v);
    HexInjective(a[0..4], b[0..4]);
    HexInjective(a[4..6], b[4..6]);
    HexInjective(a[6..8], b[6..8]);
    HexInjective(a[8..10], b[8..10]);
    HexInjective(a[10..16], b[10..16]);
    GroupsCover(a);
    GroupsCover(b);
  }
}
