/**
 IP prefixes as bit strings, first-match scans, and when they return the longest
 match.  An address is its bits: 32 for IPv4, 128 for IPv6.
 */
module Prefixes {
  import opened Common

  type Bits = seq<bool>

  datatype Prefix = Prefix(bits: Bits, len: nat) {
    predicate Valid() { len <= |bits| }

    function Net(): Bits
      requires Valid()
    {
      bits[..len]
    }
  }

  type ValidPrefix = p: Prefix | p.Valid() witness Prefix([], 0)

  type Table = seq<ValidPrefix>

  /** Same address family, and the address starts with the network bits. */
  predicate Contains(p: ValidPrefix, a: Bits) {
    |a| == |p.bits| && p.Net() <= a
  }

  /** Bit by bit: the address has the length of the family and agrees with the
      network in its first `len` bits. */
  lemma ContainsIff(p: ValidPrefix, a: Bits)
    ensures Contains(p, a) <==> |a| == |p.bits| && forall i :: 0 <= i < p.len ==> a[i] == p.bits[i]
  {
    if |a| == |p.bits| && forall i :: 0 <= i < p.len ==> a[i] == p.bits[i] {
      assert a[..p.len] == p.bits[..p.len];
    }
    if Contains(p, a) {
      forall i | 0 <= i < p.len ensures a[i] == p.bits[i] {
        assert p.Net()[i] == p.bits[i];
      }
    }
  }

  /** p is strictly wider than q and contains all of it. */
  predicate Covers(p: ValidPrefix, q: ValidPrefix) {
    |p.bits| == |q.bits| && p.len < q.len && p.Net() <= q.Net()
  }

  /** The prefixes that contain one address form a chain. */
  lemma ContainingFormChain(p: ValidPrefix, q: ValidPrefix, a: Bits)
    requires Contains(p, a) && Contains(q, a)
    ensures Covers(p, q) || Covers(q, p) || p.Net() == q.Net()
  {
    assert p.Net() == a[..p.len] && q.Net() == a[..q.len];
  }

  function FirstMatch(ps: Table, a: Bits): (r: Option<nat>)
    ensures r.Some? ==> r.value < |ps| && Contains(ps[r.value], a)
    ensures r.Some? ==> forall j :: 0 <= j < r.value ==> !Contains(ps[j], a)
    ensures r.None? ==> forall j :: 0 <= j < |ps| ==> !Contains(ps[j], a)
  {
    if ps == [] then None
    else if Contains(ps[0], a) then Some(0)
    else match FirstMatch(ps[1..], a)
      case None => None
      case Some(i) => Some(i + 1)
  }

  /** The scan shared by the memory store and the bootstrap registry. */
  method Scan(ps: Table, a: Bits) returns (r: Option<nat>)
    ensures r == FirstMatch(ps, a)
  {
    for i := 0 to |ps|
      invariant forall j :: 0 <= j < i ==> !Contains(ps[j], a)
    {
      if Contains(ps[i], a) {
        return Some(i);
      }
    }
    return None;
  }

  /** Entry i is a longest match: what `ORDER BY masklen DESC LIMIT 1` may return. */
  predicate IsLongest(ps: Table, a: Bits, i: nat) {
    && i < |ps| && Contains(ps[i], a)
    && forall j :: 0 <= j < |ps| && Contains(ps[j], a) ==> ps[j].len <= ps[i].len
  }

  ghost predicate ScanFindsLongest(ps: Table) {
    forall a :: FirstMatch(ps, a).Some? ==> IsLongest(ps, a, FirstMatch(ps, a).value)
  }

  /* ------------------------------------------------------------------ */
  /* The exact condition on the order of entries                         */
  /* ------------------------------------------------------------------ */

  predicate Within(net: Bits, width: nat, p: ValidPrefix) {
    |p.bits| == width && p.Net() <= net
  }

  /** Every address of the network is in some prefix of the table; decided by
      splitting the network into its halves. */
  predicate Shadowed(net: Bits, width: nat, ps: Table)
    decreases width - |net|
  {
    (exists i :: 0 <= i < |ps| && Within(net, width, ps[i])) ||
    (|net| < width && Shadowed(net + [false], width, ps) && Shadowed(net + [true], width, ps))
  }

  lemma {:induction false} ShadowedContains(net: Bits, width: nat, ps: Table, a: Bits)
    requires |a| == width && net <= a && Shadowed(net, width, ps)
    ensures exists i :: 0 <= i < |ps| && Contains(ps[i], a)
    decreases width - |net|
  {
    if i :| 0 <= i < |ps| && Within(net, width, ps[i]) {
      assert Contains(ps[i], a);
    } else {
      var b := a[|net|];
      assert net + [b] <= a;
      ShadowedContains(net + [b], width, ps, a);
    }
  }

  lemma {:induction false} UnshadowedAddress(net: Bits, width: nat, ps: Table) returns (a: Bits)
    requires |net| <= width && !Shadowed(net, width, ps)
    ensures |a| == width && net <= a && forall i :: 0 <= i < |ps| ==> !Contains(ps[i], a)
    decreases width - |net|
  {
    if |net| == width {
      a := net;
      forall i | 0 <= i < |ps| ensures !Contains(ps[i], a) {
        assert !Within(net, width, ps[i]);
      }
    } else if !Shadowed(net + [false], width, ps) {
      a := UnshadowedAddress(net + [false], width, ps);
    } else {
      a := UnshadowedAddress(net + [true], width, ps);
    }
  }

  /** Whenever a wider entry stands before one it covers, the covered network is
      already shadowed by the entries before the wider one. */
  predicate WellOrdered(ps: Table) {
    forall i, j :: 0 <= i < j < |ps| && Covers(ps[i], ps[j]) ==> Shadowed(ps[j].Net(), |ps[j].bits|, ps[..i])
  }

  lemma OrderedScan(ps: Table, a: Bits)
    requires WellOrdered(ps) && FirstMatch(ps, a).Some?
    ensures IsLongest(ps, a, FirstMatch(ps, a).value)
  {
    var h := FirstMatch(ps, a).value;
    forall j | 0 <= j < |ps| && Contains(ps[j], a) ensures ps[j].len <= ps[h].len {
      if ps[h].len < ps[j].len {
        ContainingFormChain(ps[h], ps[j], a);
        assert Covers(ps[h], ps[j]);
        ShadowedContains(ps[j].Net(), |a|, ps[..h], a);
      }
    }
  }

  /** The scan returns a longest match for every address if and only if the
      entries are well ordered. */
  lemma ScanFindsLongestIff(ps: Table)
    ensures ScanFindsLongest(ps) <==> WellOrdered(ps)
  {
    if WellOrdered(ps) {
      forall a | FirstMatch(ps, a).Some? ensures IsLongest(ps, a, FirstMatch(ps, a).value) {
        OrderedScan(ps, a);
      }
    } else {
      var i, j :| 0 <= i < j < |ps| && Covers(ps[i], ps[j]) && !Shadowed(ps[j].Net(), |ps[j].bits|, ps[..i]);
      var a := UnshadowedAddress(ps[j].Net(), |ps[j].bits|, ps[..i]);
      assert Contains(ps[j], a) && Contains(ps[i], a);
      forall m | 0 <= m < i ensures !Contains(ps[m], a) {
        assert ps[..i][m] == ps[m];
      }
      assert FirstMatch(ps, a) == Some(i);
      assert !IsLongest(ps, a, i);
    }
  }

  /** The simple sufficient order: no entry after a strictly wider one that
      contains it. */
  lemma NarrowFirstSuffices(ps: Table)
    requires forall i, j :: 0 <= i < j < |ps| ==> !Covers(ps[i], ps[j])
    ensures ScanFindsLongest(ps)
  {
    ScanFindsLongestIff(ps);
  }

  /** The opposite order fails for every nested pair. */
  lemma WideFirstFails(p: ValidPrefix, q: ValidPrefix)
    requires Covers(p, q)
    ensures !ScanFindsLongest([p, q]) && ScanFindsLongest([q, p])
  {
    ScanFindsLongestIff([p, q]);
    ScanFindsLongestIff([q, p]);
    if Shadowed(q.Net(), |q.bits|, []) {
      var a := q.bits;
      ShadowedContains(q.Net(), |q.bits|, [], a);
    }
    assert [p, q][..0] == [];
    assert Covers([p, q][0], [p, q][1]);
  }

  /** The memory scan and the SQL query name the same row, for tables in good
      order without two equal networks. */
  lemma MemoryAgreesWithPostgres(ps: Table, a: Bits, i: nat)
    requires WellOrdered(ps)
    requires forall m, n :: 0 <= m < n < |ps| && |ps[m].bits| == |ps[n].bits| ==> ps[m].Net() != ps[n].Net()
    ensures FirstMatch(ps, a) == Some(i) <==> IsLongest(ps, a, i)
  {
    if FirstMatch(ps, a).Some? {
      OrderedScan(ps, a);
      var h := FirstMatch(ps, a).value;
      if IsLongest(ps, a, i) {
        assert ps[i].Net() == a[..ps[i].len] && ps[h].Net() == a[..ps[h].len];
      }
    }
  }
}
