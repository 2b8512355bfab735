/** Bytes, C strings, the order that strcmp() puts on them, and what all modules share. */
module Bytes {
  type byte = b: int | 0 <= b < 256

  datatype Option<T> = None | Some(value: T)

  /** The pseudo-message that tells a handler of a closed connection. */
  const MSG_EOF: byte := 0xff

  /** The C string at the front of s: everything before the first NUL (or all of s). */
  function CStr(s: seq<byte>): (r: seq<byte>)
    ensures 0 !in r
    ensures |r| <= |s| && r == s[..|r|]
    ensures |r| < |s| ==> s[|r|] == 0
    ensures 0 in s <==> |r| < |s|
  {
    if s == [] || s[0] == 0 then [] else [s[0]] + CStr(s[1..])
  }

  /** strcmp(a, b) < 0 for two C strings: bytes compare unsigned, and a proper prefix is smaller. */
  predicate Less(a: seq<byte>, b: seq<byte>)
  {
    b != [] && (a == [] || a[0] < b[0] || (a[0] == b[0] && Less(a[1..], b[1..])))
  }

  lemma {:induction false} LessIrreflexive(a: seq<byte>)
    ensures !Less(a, a)
  {
    if a != [] { LessIrreflexive(a[1..]); }
  }

  lemma {:induction false} LessTransitive(a: seq<byte>, b: seq<byte>, c: seq<byte>)
    requires Less(a, b) && Less(b, c)
    ensures Less(a, c)
  {
    if a != [] && a[0] == b[0] && b[0] == c[0] {
      LessTransitive(a[1..], b[1..], c[1..]);
    }
  }

  lemma {:induction false} LessTotal(a: seq<byte>, b: seq<byte>)
    ensures a == b || Less(a, b) || Less(b, a)
  {
    if a != [] && b != [] && a[0] == b[0] {
      LessTotal(a[1..], b[1..]);
      assert a == [a[0]] + a[1..] && b == [b[0]] + b[1..];
    }
  }

  lemma {:induction false} LessAsymmetric(a: seq<byte>, b: seq<byte>)
    requires Less(a, b)
    ensures !Less(b, a)
    ensures a != b
  {
    LessIrreflexive(a);
    if Less(b, a) { LessTransitive(a, b, a); }
  }

  /** a comes before b at position k: they are the same up to there, and then a ends or has the smaller byte. */
  ghost predicate BeforeAt(a: seq<byte>, b: seq<byte>, k: nat)
  {
    k <= |a| && k < |b| && a[..k] == b[..k] && (k == |a| || a[k] < b[k])
  }

  ghost predicate Precedes(a: seq<byte>, b: seq<byte>)
  {
    exists k: nat :: BeforeAt(a, b, k)
  }

  /** The order of strcmp(): the first position at which two strings differ decides. */
  lemma {:induction false} LessIs(a: seq<byte>, b: seq<byte>)
    ensures Less(a, b) <==> Precedes(a, b)
    decreases |a|
  {
    if a == [] || b == [] || a[0] != b[0] {
      if Less(a, b) { assert BeforeAt(a, b, 0); }
      forall k: nat | a != [] && b != [] && k > 0 ensures !BeforeAt(a, b, k) {
        if k <= |a| && k < |b| { assert a[..k][0] == a[0] && b[..k][0] == b[0]; }
      }
    } else {
      LessIs(a[1..], b[1..]);
      if Less(a, b) {
        var k: nat :| BeforeAt(a[1..], b[1..], k);
        assert a[..k + 1] == [a[0]] + a[1..][..k] && b[..k + 1] == [b[0]] + b[1..][..k];
        assert BeforeAt(a, b, k + 1);
      }
      if k: nat :| BeforeAt(a, b, k) {
        assert a[1..][..k - 1] == a[..k][1..] && b[1..][..k - 1] == b[..k][1..];
        assert BeforeAt(a[1..], b[1..], k - 1);
      }
    }
  }

  lemma {:induction false} Associates<T>(a: seq<T>, b: seq<T>, c: seq<T>)
    ensures (a + b) + c == a + (b + c)
  {
  }
}
