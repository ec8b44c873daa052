/** FEC groups inside a list of segments: members in order, removal of a whole group, and counting. */
module Groups {
  import opened Schedule

  /** The members of group `k`, in list order. */
  function Members(w: seq<Seg>, k: nat): (m: seq<Seg>)
    ensures forall i :: 0 <= i < |m| ==> m[i].grp == k
  {
    if w == [] then []
    else if w[0].grp == k then [w[0]] + Members(w[1..], k)
    else Members(w[1..], k)
  }

  /** The list without group `k`. */
  function Without(w: seq<Seg>, k: nat): (r: seq<Seg>)
  {
    if w == [] then []
    else if w[0].grp == k then Without(w[1..], k)
    else [w[0]] + Without(w[1..], k)
  }

  /** Either no member, or every member exactly once and in order, with the right roles. */
  ghost predicate FullGroup(m: seq<Seg>) {
    m != [] ==>
      && (m[0].fty == Fec11 || m[0].fty == Fec23)
      && |m| == GroupSize(m[0].fty)
      && forall i :: 0 <= i < |m| ==>
           && m[i].gid == i && m[i].fty == m[0].fty
           && (m[i].recovery <==> i >= OriginalCount(m[0].fty))
           && (m[i].gidEnd <==> i == |m| - 1)
  }

  ghost predicate GroupsOk(w: seq<Seg>) {
    forall k :: FullGroup(Members(w, k))
  }

  lemma Assoc(a: seq<Seg>, b: seq<Seg>, c: seq<Seg>)
    ensures a + (b + c) == a + b + c
  {
  }

  lemma ConsAppend(a: seq<Seg>, b: seq<Seg>)
    requires a != []
    ensures a + b != [] && (a + b)[0] == a[0] && (a + b)[1..] == a[1..] + b
  {
  }

  lemma {:induction false} MembersAppend(a: seq<Seg>, b: seq<Seg>, k: nat)
    ensures Members(a + b, k) == Members(a, k) + Members(b, k)
  {
    if a == [] {
      assert a + b == b;
    } else {
      MembersAppend(a[1..], b, k);
      ConsAppend(a, b);
      Assoc([a[0]], Members(a[1..], k), Members(b, k));
    }
  }

  lemma {:induction false} WithoutAppend(a: seq<Seg>, b: seq<Seg>, k: nat)
    ensures Without(a + b, k) == Without(a, k) + Without(b, k)
  {
    if a == [] {
      assert a + b == b;
    } else {
      WithoutAppend(a[1..], b, k);
      ConsAppend(a, b);
      Assoc([a[0]], Without(a[1..], k), Without(b, k));
    }
  }

  lemma {:induction false} WithoutLength(w: seq<Seg>, k: nat)
    ensures |Without(w, k)| + |Members(w, k)| == |w|
  {
    if w != [] {
      WithoutLength(w[1..], k);
    }
  }

  lemma {:induction false} MembersOfWithout(w: seq<Seg>, k: nat, j: nat)
    ensures Members(Without(w, k), j) == if j == k then [] else Members(w, j)
  {
    if w != [] {
      MembersOfWithout(w[1..], k, j);
      assert w[0].grp != k ==> Without(w, k)[1..] == Without(w[1..], k);
    }
  }

  lemma {:induction false} WithoutNone(w: seq<Seg>, k: nat)
    requires Members(w, k) == []
    ensures Without(w, k) == w
    ensures forall i :: 0 <= i < |w| ==> w[i].grp != k
  {
    if w != [] {
      WithoutNone(w[1..], k);
      assert [w[0]] + w[1..] == w;
    }
  }

  lemma {:induction false} NoMembers(w: seq<Seg>, k: nat)
    requires forall i :: 0 <= i < |w| ==> w[i].grp != k
    ensures Members(w, k) == []
  {
    if w != [] {
      NoMembers(w[1..], k);
    }
  }

  lemma RemoveGroupOk(w: seq<Seg>, k: nat)
    requires GroupsOk(w)
    ensures GroupsOk(Without(w, k))
  {
    forall j ensures FullGroup(Members(Without(w, k), j)) {
      MembersOfWithout(w, k, j);
      assert FullGroup(Members(w, j));
    }
  }

  // ----- Counting -----

  function Originals(w: seq<Seg>): (n: nat) {
    if w == [] then 0 else (if w[0].recovery then 0 else 1) + Originals(w[1..])
  }

  function Recoveries(w: seq<Seg>): (n: nat)
    ensures n + Originals(w) == |w|
  {
    if w == [] then 0 else (if w[0].recovery then 1 else 0) + Recoveries(w[1..])
  }

  lemma {:induction false} RecoveriesAppend(a: seq<Seg>, b: seq<Seg>)
    ensures Recoveries(a + b) == Recoveries(a) + Recoveries(b)
  {
    if a == [] {
      assert a + b == b;
    } else {
      RecoveriesAppend(a[1..], b);
      ConsAppend(a, b);
    }
  }

  lemma {:induction false} RecoveriesSplit(w: seq<Seg>, k: nat)
    ensures Recoveries(w) == Recoveries(Members(w, k)) + Recoveries(Without(w, k))
  {
    if w != [] {
      RecoveriesSplit(w[1..], k);
      if w[0].grp == k {
        assert Members(w, k)[1..] == Members(w[1..], k);
      } else {
        assert Without(w, k)[1..] == Without(w[1..], k);
      }
    }
  }

  lemma GroupRecoveries(m: seq<Seg>)
    requires FullGroup(m)
    ensures 3 * Recoveries(m) <= |m|
  {
    if m != [] {
      if m[0].fty == Fec11 {
        assert m == [m[0]];
      } else {
        assert m[1..][1..] == [m[2]];
        assert Recoveries(m[1..]) == Recoveries([m[2]]);
        assert Recoveries([m[2]]) == 1;
      }
    }
  }

  /** Complete groups hold at most one recovery segment for every two originals. */
  lemma {:induction false} FewRecoveries(w: seq<Seg>)
    requires GroupsOk(w)
    ensures 2 * Recoveries(w) <= Originals(w)
    decreases |w|
  {
    if w != [] {
      var k := w[0].grp;
      assert FullGroup(Members(w, k));
      GroupRecoveries(Members(w, k));
      RecoveriesSplit(w, k);
      RemoveGroupOk(w, k);
      WithoutLength(w, k);
      FewRecoveries(Without(w, k));
    }
  }
}
