/** Identifiers drawn from `uuid.uuid4()`: the request id and the image key are
    `str(uuid.uuid4()).replace("-", "")`. */
module Ids {
  import opened Text

  predicate IsLowerHex(c: char) {
    ('0' <= c <= '9') || ('a' <= c <= 'f')
  }

  /** 32 lower-case hexadecimal characters. */
  predicate IsHexId(s: string) {
    |s| == 32 && forall i :: 0 <= i < |s| ==> IsLowerHex(s[i])
  }

  predicate IsHyphenPosition(i: int) {
    i == 8 || i == 13 || i == 18 || i == 23
  }

  /** The text form of a UUID: 8-4-4-4-12 lower-case hex digits joined by
      hyphens. */
  predicate IsCanonicalUuid(s: string) {
    && |s| == 36
    && forall i :: 0 <= i < 36 ==> if IsHyphenPosition(i) then s[i] == '-' else IsLowerHex(s[i])
  }

  /** What `str(uuid.uuid4())` can return. */
  type UuidText = s: string | IsCanonicalUuid(s) witness "00000000-0000-0000-0000-000000000000"

  /** `str(u).replace("-", "")`. */
  function Compact(u: string): string {
    Remove(u, '-')
  }

  /** The id made from one UUID draw. */
  function IdOf(u: UuidText): (id: string)
    ensures IsHexId(id) && id == Compact(u)
  {
    CompactIsHexId(u);
    Compact(u)
  }

  lemma HexGroup(u: string, a: nat, b: nat)
    requires IsCanonicalUuid(u) && a <= b <= 36
    requires forall i :: a <= i < b ==> !IsHyphenPosition(i)
    ensures Compact(u[a..b]) == u[a..b]
    ensures forall i :: 0 <= i < b - a ==> IsLowerHex(u[a..b][i])
  {
    assert forall i :: 0 <= i < b - a ==> u[a..b][i] == u[a + i];
    RemoveAbsent(u[a..b], '-');
  }

  lemma HyphenJoin(a: string, b: string)
    ensures Compact(a + "-" + b) == Compact(a) + Compact(b)
  {
    var h := "-";
    RemoveAppend(a + h, b, '-');
    RemoveAppend(a, h, '-');
    assert Remove(h[1..], '-') == "";
    assert Remove(h, '-') == "";
    assert Compact(a + h) == Compact(a);
  }

  /** Removing the hyphens of a UUID leaves 32 lower-case hex characters: the
      five digit groups, in order. */
  lemma CompactIsHexId(u: string)
    requires IsCanonicalUuid(u)
    ensures IsHexId(Compact(u))
    ensures Compact(u) == u[..8] + u[9..13] + u[14..18] + u[19..23] + u[24..]
  {
    var g1, g2, g3, g4, g5 := u[..8], u[9..13], u[14..18], u[19..23], u[24..];
    assert u == g1 + "-" + g2 + "-" + g3 + "-" + g4 + "-" + g5;
    HexGroup(u, 0, 8);
    HexGroup(u, 9, 13);
    HexGroup(u, 14, 18);
    HexGroup(u, 19, 23);
    HexGroup(u, 24, 36);
    assert u[0..8] == g1 && u[24..36] == g5;
    var a2 := g1 + "-" + g2;
    var a3 := a2 + "-" + g3;
    var a4 := a3 + "-" + g4;
    assert u == a4 + "-" + g5;
    HyphenJoin(g1, g2);
    HyphenJoin(a2, g3);
    HyphenJoin(a3, g4);
    HyphenJoin(a4, g5);
    var r := g1 + g2 + g3 + g4 + g5;
    assert Compact(u) == r;
    forall i | 0 <= i < 32 ensures IsLowerHex(r[i]) {
      if i < 8 { assert r[i] == g1[i]; }
      else if i < 12 { assert r[i] == g2[i - 8]; }
      else if i < 16 { assert r[i] == g3[i - 12]; }
      else if i < 20 { assert r[i] == g4[i - 16]; }
      else { assert r[i] == g5[i - 20]; }
    }
  }

  /** Distinct UUIDs give distinct compact ids, so the hyphen removal loses
      nothing. */
  lemma CompactInjective(u: string, v: string)
    requires IsCanonicalUuid(u) && IsCanonicalUuid(v) && u != v
    ensures Compact(u) != Compact(v)
  {
    CompactIsHexId(u);
    CompactIsHexId(v);
    var i :| 0 <= i < 36 && u[i] != v[i];
    var cu, cv := Compact(u), Compact(v);
    if i < 8 { assert cu[i] == u[i] && cv[i] == v[i]; }
    else if 8 < i < 13 { assert cu[i - 1] == u[i] && cv[i - 1] == v[i]; }
    else if 13 < i < 18 { assert cu[i - 2] == u[i] && cv[i - 2] == v[i]; }
    else if 18 < i < 23 { assert cu[i - 3] == u[i] && cv[i - 3] == v[i]; }
    else if 23 < i { assert cu[i - 4] == u[i] && cv[i - 4] == v[i]; }
  }
}
