/** Object names, their order (Go's bytewise string order) and ordered listings. */
module Names {
  import opened Common

  newtype byte = b: int | 0 <= b < 256

  type Name = seq<byte>

  // ---------------------------------------------------------------- order

  /** `a[k..] < b[k..]`, bytewise. */
  predicate LessFrom(a: Name, b: Name, k: nat)
    requires k <= |a| && k <= |b|
    decreases |a| - k
  {
    k < |b| && (k == |a| || a[k] < b[k] || (a[k] == b[k] && LessFrom(a, b, k + 1)))
  }

  /** `a < b` for Go strings. */
  predicate Less(a: Name, b: Name) { LessFrom(a, b, 0) }

  /** `strings.HasPrefix(a, p)`. */
  predicate HasPrefix(a: Name, p: Name) { |p| <= |a| && a[..|p|] == p }

  lemma {:induction false} TotalFrom(a: Name, b: Name, k: nat)
    requires k <= |a| && k <= |b| && a[..k] == b[..k]
    ensures a == b || LessFrom(a, b, k) || LessFrom(b, a, k)
    decreases |a| - k
  {
    if k < |a| && k < |b| && a[k] == b[k] {
      assert a[..k + 1] == a[..k] + [a[k]] == b[..k + 1];
      TotalFrom(a, b, k + 1);
    } else if k == |a| == |b| {
      assert a == a[..k] == b[..k] == b;
    }
  }

  lemma {:induction false} AsymmetricFrom(a: Name, b: Name, k: nat)
    requires k <= |a| && k <= |b| && LessFrom(a, b, k)
    ensures !LessFrom(b, a, k)
    decreases |a| - k
  {
    if k < |a| && a[k] == b[k] { AsymmetricFrom(a, b, k + 1); }
  }

  lemma {:induction false} TransitiveFrom(a: Name, b: Name, c: Name, k: nat)
    requires k <= |a| && k <= |b| && k <= |c| && LessFrom(a, b, k) && LessFrom(b, c, k)
    ensures LessFrom(a, c, k)
    decreases |a| - k
  {
    if k < |a| && a[k] == b[k] == c[k] { TransitiveFrom(a, b, c, k + 1); }
  }

  /** The names agree before position `k`, where `a` ends or has the smaller byte. */
  ghost predicate Differs(a: Name, b: Name, k: nat) {
    k <= |a| && k < |b| && a[..k] == b[..k] && (k == |a| || a[k] < b[k])
  }

  lemma {:induction false} LessFromIff(a: Name, b: Name, k: nat)
    requires k <= |a| && k <= |b| && a[..k] == b[..k]
    ensures LessFrom(a, b, k) <==> exists i :: k <= i && Differs(a, b, i)
    decreases |a| - k
  {
    forall i | k < i && Differs(a, b, i) ensures k < |a| && k < |b| && a[k] == b[k] {
      assert a[..i][k] == b[..i][k];
    }
    if k < |a| && k < |b| && a[k] == b[k] {
      assert a[..k + 1] == a[..k] + [a[k]] == b[..k + 1];
      LessFromIff(a, b, k + 1);
    } else {
      assert LessFrom(a, b, k) ==> Differs(a, b, k);
    }
  }

  /** One name is below another if and only if, at the first position where they differ, it ends or has the
      smaller byte. */
  lemma LessIff(a: Name, b: Name)
    ensures Less(a, b) <==> exists k: nat :: Differs(a, b, k)
  {
    LessFromIff(a, b, 0);
  }

  lemma LessTotal(a: Name, b: Name)
    ensures a == b || Less(a, b) || Less(b, a)
  {
    TotalFrom(a, b, 0);
  }

  lemma LessAsymmetric(a: Name, b: Name)
    requires Less(a, b)
    ensures !Less(b, a)
  {
    AsymmetricFrom(a, b, 0);
  }

  lemma LessTransitive(a: Name, b: Name, c: Name)
    requires Less(a, b) && Less(b, c)
    ensures Less(a, c)
  {
    TransitiveFrom(a, b, c, 0);
  }

  /** `Less` is a strict total order; the empty name is its least element. */
  lemma Order()
    ensures forall a, b {:trigger Less(a, b)} :: Less(a, b) ==> a != b && !Less(b, a)
    ensures forall a, b {:trigger Less(a, b)} :: Less(a, b) || a == b || Less(b, a)
    ensures forall a, b, c {:trigger Less(a, b), Less(b, c)} :: Less(a, b) && Less(b, c) ==> Less(a, c)
    ensures forall a, b, c {:trigger Less(a, b), Less(c, b)} :: Less(a, b) && !Less(c, b) ==> Less(a, c)
    ensures forall a, b, c {:trigger Less(a, b), Less(a, c)} :: Less(a, b) && !Less(a, c) ==> Less(c, b)
    ensures forall a {:trigger Less([], a)} :: a != [] ==> Less([], a)
  {
    forall a, b | Less(a, b) ensures a != b && !Less(b, a) { LessAsymmetric(a, b); }
    forall a, b ensures Less(a, b) || a == b || Less(b, a) { LessTotal(a, b); }
    forall a, b, c | Less(a, b) && Less(b, c) ensures Less(a, c) { LessTransitive(a, b, c); }
    forall a, b, c | Less(a, b) && !Less(c, b) ensures Less(a, c) {
      LessTotal(b, c);
      if Less(b, c) { LessTransitive(a, b, c); }
    }
    forall a, b, c | Less(a, b) && !Less(a, c) ensures Less(c, b) {
      LessTotal(a, c);
      if Less(c, a) { LessTransitive(c, a, b); }
    }
  }

  lemma Irreflexive(x: Name)
    ensures !Less(x, x)
  {
    Order();
  }

  /** A name with prefix `p` is not below `p`. */
  lemma PrefixNotBelow(x: Name, p: Name)
    requires HasPrefix(x, p)
    ensures !Less(x, p)
  {
    PrefixNotBelowFrom(x, p, 0);
  }

  lemma {:induction false} PrefixNotBelowFrom(x: Name, p: Name, k: nat)
    requires HasPrefix(x, p) && k <= |p|
    ensures !LessFrom(x, p, k)
    decreases |p| - k
  {
    if k < |p| {
      assert x[..|p|][k] == x[k];
      PrefixNotBelowFrom(x, p, k + 1);
    }
  }

  /** Past `p`, the first name without the prefix ends the range of the prefix. */
  lemma PrefixRangeEnds(p: Name, y: Name, z: Name)
    requires HasPrefix(y, p) && Less(p, z) && !HasPrefix(z, p)
    ensures Less(y, z)
  {
    PrefixRangeEndsFrom(p, y, z, 0);
  }

  lemma {:induction false} PrefixRangeEndsFrom(p: Name, y: Name, z: Name, k: nat)
    requires HasPrefix(y, p) && !HasPrefix(z, p) && k <= |p| && k <= |z| && p[..k] == z[..k] && LessFrom(p, z, k)
    ensures LessFrom(y, z, k)
    decreases |p| - k
  {
    if k < |p| {
      assert y[..|p|][k] == y[k];
      if p[k] == z[k] {
        assert p[..k + 1] == p[..k] + [p[k]] == z[..k + 1];
        PrefixRangeEndsFrom(p, y, z, k + 1);
      }
    }
  }

  // ---------------------------------------------------------------- ordered listings

  /** Strictly increasing: sorted and without duplicates. */
  predicate Sorted(s: seq<Name>) {
    forall i, j :: 0 <= i < j < |s| ==> Less(s[i], s[j])
  }

  /** `sort.Search` for the first entry above `t`, from position `i`. */
  function AfterFrom(s: seq<Name>, t: Name, i: nat): (r: nat)
    requires i <= |s|
    ensures i <= r <= |s|
    ensures forall k :: i <= k < r ==> !Less(t, s[k])
    ensures r < |s| ==> Less(t, s[r])
    decreases |s| - i
  {
    if i == |s| || Less(t, s[i]) then i else AfterFrom(s, t, i + 1)
  }

  /** Index of the first entry of `s` above `t`: how many entries a token `t` includes. */
  function After(s: seq<Name>, t: Name): (r: nat)
    ensures r <= |s|
    ensures forall k :: 0 <= k < r ==> !Less(t, s[k])
    ensures r < |s| ==> Less(t, s[r])
  {
    AfterFrom(s, t, 0)
  }

  function Last(s: seq<Name>): Name
    requires s != []
  {
    s[|s| - 1]
  }

  /** Direct listing: the first `n` names of `s` after token `t`. */
  function Page(s: seq<Name>, t: Name, n: nat): seq<Name> {
    var i := After(s, t);
    s[i..Min(i + n, |s|)]
  }

  /** In a sorted listing, the entries above `t` are exactly those from `After` on. */
  lemma AfterSplits(s: seq<Name>, t: Name, i: nat)
    requires Sorted(s) && i < |s|
    ensures Less(t, s[i]) <==> After(s, t) <= i
  {
    Order();
    var r := After(s, t);
    assert r < i ==> Less(s[r], s[i]);
  }

  lemma AfterIs(s: seq<Name>, t: Name, i: nat)
    requires i <= |s|
    requires forall k :: 0 <= k < i ==> !Less(t, s[k])
    requires i < |s| ==> Less(t, s[i])
    ensures After(s, t) == i
  {
  }

  /** `After` is the only index that splits a listing into entries up to `t` and above it. */
  lemma AfterUnique(s: seq<Name>, t: Name, i: nat)
    requires Sorted(s) && i <= |s|
    requires i > 0 ==> !Less(t, s[i - 1])
    requires i < |s| ==> Less(t, s[i])
    ensures After(s, t) == i
  {
    if i > 0 { AfterSplits(s, t, i - 1); }
    if i < |s| { AfterSplits(s, t, i); }
  }

  /** A name of the listing includes itself and everything before it. */
  lemma AfterOwn(s: seq<Name>, i: nat)
    requires Sorted(s) && i < |s|
    ensures After(s, s[i]) == i + 1
  {
    Order();
    AfterUnique(s, s[i], i + 1);
  }

  lemma AfterMonotone(s: seq<Name>, t: Name, u: Name)
    requires Sorted(s) && !Less(u, t)
    ensures After(s, t) <= After(s, u)
  {
    Order();
    var r := After(s, u);
    if r < |s| { AfterSplits(s, t, r); }
  }

  lemma SliceOfSlice<T>(s: seq<T>, lo: nat, hi: nat, i: nat, j: nat)
    requires lo <= hi <= |s| && i <= j <= hi - lo
    ensures s[lo..hi][i..j] == s[lo + i..lo + j]
  {
    forall k | 0 <= k < j - i ensures s[lo..hi][i..j][k] == s[lo + i..lo + j][k] { }
  }

  lemma TakeOfDrop<T>(s: seq<T>, a: nat, n: nat)
    requires a + n <= |s|
    ensures s[a..][..n] == s[a..a + n]
  {
  }

  /** Two listings of the same names are the same listing. */
  lemma {:induction false} SortedUnique(s: seq<Name>, t: seq<Name>)
    requires Sorted(s) && Sorted(t)
    requires forall x :: x in s <==> x in t
    ensures s == t
    decreases |s|
  {
    assert s == [] <==> t == [] by {
      assert t != [] ==> t[0] in t;
      assert s != [] ==> s[0] in s;
    }
    if s != [] {
      Order();
      assert s[0] in t;
      assert t[0] in s;
      assert s[0] == t[0];
      forall x ensures x in s[1..] <==> x in t[1..] {
        assert x in s <==> x == s[0] || x in s[1..];
        assert x in t <==> x == t[0] || x in t[1..];
      }
      SortedUnique(s[1..], t[1..]);
      assert s == [s[0]] + s[1..];
      assert t == [t[0]] + t[1..];
    }
  }
}
