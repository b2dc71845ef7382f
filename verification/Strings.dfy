/** C strings as the file system drivers compare them. */
module Strings {
  import opened Bits

  ghost predicate CString(s: seq<byte>) { forall i :: 0 <= i < |s| ==> s[i] != 0 }

  predicate AsciiOnly(s: seq<byte>) { forall i :: 0 <= i < |s| ==> s[i] < 0x80 }

  function Upper(c: byte): byte { if 0x61 <= c <= 0x7A then c - 32 else c }
  function Lower(c: byte): byte { if 0x41 <= c <= 0x5A then c + 32 else c }

  predicate SameName(a: seq<byte>, b: seq<byte>) {
    |a| == |b| && forall i :: 0 <= i < |a| ==> Lower(a[i]) == Lower(b[i])
  }

  /** The prefix before the first byte satisfying stop. */
  function Until(s: seq<byte>, stop: set<byte>): (r: seq<byte>)
    ensures |r| <= |s| && r == s[..|r|]
    ensures forall i :: 0 <= i < |r| ==> r[i] !in stop
    ensures |r| < |s| ==> s[|r|] in stop
  {
    if s == [] || s[0] in stop then [] else [s[0]] + Until(s[1..], stop)
  }

  lemma {:induction false} UntilIs(s: seq<byte>, stop: set<byte>, k: nat)
    requires k <= |s| && (forall i :: 0 <= i < k ==> s[i] !in stop) && (k < |s| ==> s[k] in stop)
    ensures Until(s, stop) == s[..k]
  {
    if k == 0 {
      assert s[..0] == [];
    } else {
      UntilIs(s[1..], stop, k - 1);
      assert s[..k] == [s[0]] + s[1..][..k - 1];
    }
  }
}
