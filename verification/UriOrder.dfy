/** The order of service names: `strcmp` on NUL-terminated strings of bytes. A string is
    written without its NUL. */
module UriOrder {

  type Byte = b: int | 1 <= b < 256 witness 1
  type Uri = seq<Byte>

  /** The sign of `strcmp`: that of the first difference, the NUL at the end counting as 0. */
  function StrCmp(a: Uri, b: Uri): int {
    if a == [] && b == [] then 0
    else if a == [] then -1
    else if b == [] then 1
    else if a[0] < b[0] then -1
    else if a[0] > b[0] then 1
    else StrCmp(a[1..], b[1..])
  }

  predicate Less(a: Uri, b: Uri) { StrCmp(a, b) < 0 }

  lemma {:induction false} StrCmpEqual(a: Uri, b: Uri)
    ensures StrCmp(a, b) == 0 <==> a == b
  {
    if a != [] && b != [] {
      StrCmpEqual(a[1..], b[1..]);
      assert a == [a[0]] + a[1..] && b == [b[0]] + b[1..];
    }
  }

  lemma {:induction false} StrCmpReversed(a: Uri, b: Uri)
    ensures StrCmp(b, a) == -StrCmp(a, b)
  {
    if a != [] && b != [] {
      StrCmpReversed(a[1..], b[1..]);
    }
  }

  lemma {:induction false} StrCmpTransitive(a: Uri, b: Uri, c: Uri)
    requires StrCmp(a, b) <= 0 && StrCmp(b, c) <= 0
    ensures StrCmp(a, c) <= 0
    ensures StrCmp(a, c) == 0 ==> StrCmp(a, b) == 0 && StrCmp(b, c) == 0
  {
    if a != [] && b != [] && c != [] && a[0] == b[0] == c[0] {
      StrCmpTransitive(a[1..], b[1..], c[1..]);
    }
  }

  /** The comparison of names is a total order whose zero is equality. */
  lemma NamesAreTotallyOrdered(a: Uri, b: Uri, c: Uri)
    ensures a != b ==> (Less(a, b) <==> !Less(b, a))
    ensures !Less(a, a)
    ensures Less(a, b) && Less(b, c) ==> Less(a, c)
  {
    StrCmpEqual(a, b);
    StrCmpEqual(a, a);
    StrCmpReversed(a, b);
    if Less(a, b) && Less(b, c) {
      StrCmpTransitive(a, b, c);
    }
  }

  /** The order is that of a dictionary over bytes: b extends a, or is larger where they first
      differ. */
  lemma {:induction false} LessExactly(a: Uri, b: Uri)
    ensures Less(a, b) <==>
      exists n: nat :: n <= |a| && n < |b| && a[..n] == b[..n] && (n == |a| || a[n] < b[n])
  {
    if a != [] && b != [] && a[0] == b[0] {
      LessExactly(a[1..], b[1..]);
      if n: nat :| n <= |a[1..]| && n < |b[1..]| && a[1..][..n] == b[1..][..n] && (n == |a[1..]| || a[1..][n] < b[1..][n]) {
        assert a[..n + 1] == [a[0]] + a[1..][..n] && b[..n + 1] == [b[0]] + b[1..][..n];
        assert n + 1 == |a| || a[n + 1] < b[n + 1];
      }
      if n: nat :| n <= |a| && n < |b| && a[..n] == b[..n] && (n == |a| || a[n] < b[n]) {
        assert n > 0;
        assert a[1..][..n - 1] == a[..n][1..] && b[1..][..n - 1] == b[..n][1..];
        assert n - 1 == |a[1..]| || a[1..][n - 1] < b[1..][n - 1];
      }
    } else {
      StartAlike(a, b);
      if Less(a, b) {
        assert a[..0] == b[..0];
      }
    }
  }

  lemma StartAlike(a: Uri, b: Uri)
    ensures forall n :: 0 < n <= |a| && n <= |b| && a[..n] == b[..n] ==> a[0] == b[0]
  {
    forall n | 0 < n <= |a| && n <= |b| && a[..n] == b[..n] ensures a[0] == b[0] {
      assert a[..n][0] == b[..n][0];
    }
  }
}
