/** The array operations the cart and wishlist handlers apply to a list of
    subdocuments, looking entries up by one of their references: `find` and
    `findIndex` (first match), `splice(i, 1)`, and `filter`. They are generic in
    the subdocument type; `refs` gives a subdocument's references. */
module Entries {
  import opened Common
  import opened UserModel

  /** The subdocument's reference of kind `k` is `id` (`e.productId.equals(id)`,
      false when the field is missing). */
  predicate Targets<T>(refs: T -> Refs, e: T, k: Kind, id: Id)
  {
    refs(e).Get(k) == Some(id)
  }

  /** The first position of a subdocument that targets `id`, or -1. */
  function IndexOf<T>(s: seq<T>, refs: T -> Refs, k: Kind, id: Id): (i: int)
    ensures -1 <= i < |s|
    ensures 0 <= i ==> Targets(refs, s[i], k, id)
    ensures forall j :: 0 <= j < |s| && (i == -1 || j < i) ==> !Targets(refs, s[j], k, id)
    decreases |s|
  {
    if |s| == 0 then -1
    else if Targets(refs, s[0], k, id) then 0
    else
      var r := IndexOf(s[1..], refs, k, id);
      if r == -1 then -1 else r + 1
  }

  /** `findIndex` as the handlers run it: a left-to-right scan. */
  method FindIndex<T>(s: seq<T>, refs: T -> Refs, k: Kind, id: Id) returns (i: int)
    ensures i == IndexOf(s, refs, k, id)
  {
    i := 0;
    while i < |s| && !Targets(refs, s[i], k, id)
      invariant 0 <= i <= |s|
      invariant forall j :: 0 <= j < i ==> !Targets(refs, s[j], k, id)
    {
      i := i + 1;
    }
    ghost var expected := IndexOf(s, refs, k, id);
    if i == |s| {
      i := -1;
    } else {
      assert expected == -1 || expected >= i;
    }
  }

  /** `s.splice(i, 1)`: the list without its `i`-th subdocument. */
  function Spliced<T>(s: seq<T>, i: int): (r: seq<T>)
    requires 0 <= i < |s|
    ensures |r| == |s| - 1
  {
    s[..i] + s[i + 1..]
  }

  /** Splicing out one subdocument loses exactly that subdocument. */
  lemma SplicedMultiset<T>(s: seq<T>, i: int)
    requires 0 <= i < |s|
    ensures multiset(s) == multiset(Spliced(s, i)) + multiset{s[i]}
  {
    assert s == s[..i] + [s[i]] + s[i + 1..];
  }

  /** The subdocuments that target `id`, in order. */
  function Targeting<T>(s: seq<T>, refs: T -> Refs, k: Kind, id: Id): seq<T>
    decreases |s|
  {
    if |s| == 0 then []
    else (if Targets(refs, s[0], k, id) then [s[0]] else []) + Targeting(s[1..], refs, k, id)
  }

  /** The subdocuments that do not target `id`, in order. */
  function Others<T>(s: seq<T>, refs: T -> Refs, k: Kind, id: Id): seq<T>
    decreases |s|
  {
    if |s| == 0 then []
    else (if Targets(refs, s[0], k, id) then [] else [s[0]]) + Others(s[1..], refs, k, id)
  }

  /** Every subdocument carries a reference of kind `k`. */
  predicate AllHaveRef<T>(s: seq<T>, refs: T -> Refs, k: Kind)
  {
    forall i :: 0 <= i < |s| ==> refs(s[i]).Get(k).Some?
  }

  /** `s.filter(e => e[field].equals(id))` as written at the zero-quantity
      branch of the quantity update: the callback calls `.equals` on the field
      without testing it, so a subdocument that lacks the field makes the filter
      throw (`ok` false); otherwise only the subdocuments targeting `id` stay. */
  method KeepTargeting<T>(s: seq<T>, refs: T -> Refs, k: Kind, id: Id) returns (ok: bool, r: seq<T>)
    ensures ok <==> AllHaveRef(s, refs, k)
    ensures ok ==> r == Targeting(s, refs, k, id)
  {
    r := [];
    var i := 0;
    while i < |s|
      invariant 0 <= i <= |s|
      invariant AllHaveRef(s[..i], refs, k)
      invariant Targeting(s, refs, k, id) == r + Targeting(s[i..], refs, k, id)
    {
      if refs(s[i]).Get(k).None? {
        assert !AllHaveRef(s, refs, k);
        return false, r;
      }
      assert s[i..][1..] == s[i + 1..];
      if Targets(refs, s[i], k, id) {
        r := r + [s[i]];
      }
      assert s[..i + 1] == s[..i] + [s[i]];
      i := i + 1;
    }
    assert s[..i] == s;
    ok := true;
  }

  /** No two subdocuments carry the same reference (for either kind): the
      "one entry per target" invariant of carts and wishlists. */
  predicate AtMostOnePerTarget<T>(s: seq<T>, refs: T -> Refs)
  {
    forall i, j, k :: 0 <= i < j < |s| && refs(s[i]).Get(k).Some? ==> refs(s[i]).Get(k) != refs(s[j]).Get(k)
  }

  /** A subdocument's position within the targeting or the other entries. */
  lemma {:induction false} TargetingMembers<T>(s: seq<T>, refs: T -> Refs, k: Kind, id: Id)
    ensures forall e :: e in Targeting(s, refs, k, id) <==> e in s && Targets(refs, e, k, id)
    ensures forall e :: e in Others(s, refs, k, id) <==> e in s && !Targets(refs, e, k, id)
    ensures multiset(Targeting(s, refs, k, id)) + multiset(Others(s, refs, k, id)) == multiset(s)
    decreases |s|
  {
    if |s| > 0 {
      TargetingMembers(s[1..], refs, k, id);
      assert s == [s[0]] + s[1..];
    }
  }

  lemma OthersAppend<T>(s: seq<T>, t: seq<T>, refs: T -> Refs, k: Kind, id: Id)
    ensures Others(s + t, refs, k, id) == Others(s, refs, k, id) + Others(t, refs, k, id)
    ensures Targeting(s + t, refs, k, id) == Targeting(s, refs, k, id) + Targeting(t, refs, k, id)
  {
    OthersOfConcat(s, t, refs, k, id);
    TargetingOfConcat(s, t, refs, k, id);
  }

  /** Dropping the subdocuments for two targets gives the same list, in the
      same order, whichever target is dropped first. */
  lemma {:induction false} OthersCommute<T>(s: seq<T>, refs: T -> Refs, k1: Kind, id1: Id, k2: Kind, id2: Id)
    ensures Others(Others(s, refs, k1, id1), refs, k2, id2) == Others(Others(s, refs, k2, id2), refs, k1, id1)
    decreases |s|
  {
    if |s| > 0 {
      var h1: seq<T> := if Targets(refs, s[0], k1, id1) then [] else [s[0]];
      var h2: seq<T> := if Targets(refs, s[0], k2, id2) then [] else [s[0]];
      OthersOfConcat(h1, Others(s[1..], refs, k1, id1), refs, k2, id2);
      OthersOfConcat(h2, Others(s[1..], refs, k2, id2), refs, k1, id1);
      OthersOfConcat(h1, [], refs, k2, id2);
      OthersOfConcat(h2, [], refs, k1, id1);
      assert h1 + [] == h1 && h2 + [] == h2;
      OthersCommute(s[1..], refs, k1, id1, k2, id2);
      if h1 != [] && h2 != [] {
        assert Others(h1, refs, k2, id2) == h1 by { assert h1[1..] == []; }
        assert Others(h2, refs, k1, id1) == h2 by { assert h2[1..] == []; }
      } else if h1 != [] {
        assert Others(h1, refs, k2, id2) == [] by { assert h1[1..] == []; }
      } else if h2 != [] {
        assert Others(h2, refs, k1, id1) == [] by { assert h2[1..] == []; }
      }
    }
  }

  lemma {:induction false} OthersOfConcat<T>(s: seq<T>, t: seq<T>, refs: T -> Refs, k: Kind, id: Id)
    ensures Others(s + t, refs, k, id) == Others(s, refs, k, id) + Others(t, refs, k, id)
    decreases |s|
  {
    if |s| == 0 {
      assert s + t == t;
    } else {
      var u := s + t;
      assert u[0] == s[0];
      assert u[1..] == s[1..] + t;
      OthersOfConcat(s[1..], t, refs, k, id);
      var head: seq<T> := if Targets(refs, s[0], k, id) then [] else [s[0]];
      assert Others(u, refs, k, id) == head + Others(s[1..] + t, refs, k, id);
      assert Others(s, refs, k, id) == head + Others(s[1..], refs, k, id);
    }
  }

  /** A lone subdocument is kept exactly when it targets `id`. */
  lemma TargetingSingle<T>(x: T, refs: T -> Refs, k: Kind, id: Id)
    ensures Targeting([x], refs, k, id) == if Targets(refs, x, k, id) then [x] else []
  {
    assert [x][1..] == [];
  }

  /** Replacing a subdocument by one with the same references keeps the
      number of subdocuments that target `id`. */
  lemma TargetingSameRefs<T>(c: seq<T>, i: int, x: T, refs: T -> Refs, k: Kind, id: Id)
    requires 0 <= i < |c| && refs(x) == refs(c[i])
    ensures |Targeting(c[..i] + [x] + c[i + 1..], refs, k, id)| == |Targeting(c, refs, k, id)|
  {
    assert c == c[..i] + [c[i]] + c[i + 1..];
    TargetingOfConcat(c[..i] + [c[i]], c[i + 1..], refs, k, id);
    TargetingOfConcat(c[..i], [c[i]], refs, k, id);
    TargetingOfConcat(c[..i] + [x], c[i + 1..], refs, k, id);
    TargetingOfConcat(c[..i], [x], refs, k, id);
    TargetingSingle(x, refs, k, id);
    TargetingSingle(c[i], refs, k, id);
  }

  lemma {:induction false} TargetingOfConcat<T>(s: seq<T>, t: seq<T>, refs: T -> Refs, k: Kind, id: Id)
    ensures Targeting(s + t, refs, k, id) == Targeting(s, refs, k, id) + Targeting(t, refs, k, id)
    decreases |s|
  {
    if |s| == 0 {
      assert s + t == t;
    } else {
      var u := s + t;
      assert u[0] == s[0];
      assert u[1..] == s[1..] + t;
      TargetingOfConcat(s[1..], t, refs, k, id);
      var head: seq<T> := if Targets(refs, s[0], k, id) then [s[0]] else [];
      assert Targeting(u, refs, k, id) == head + Targeting(s[1..] + t, refs, k, id);
      assert Targeting(s, refs, k, id) == head + Targeting(s[1..], refs, k, id);
    }
  }

  /** Replacing a targeting subdocument by another targeting one leaves the
      other subdocuments as they were, in order. */
  lemma OthersUpdate<T>(s: seq<T>, i: int, x: T, refs: T -> Refs, k: Kind, id: Id)
    requires 0 <= i < |s| && Targets(refs, s[i], k, id) && Targets(refs, x, k, id)
    ensures Others(s[i := x], refs, k, id) == Others(s, refs, k, id)
  {
    assert s == s[..i] + [s[i]] + s[i + 1..];
    assert s[i := x] == s[..i] + [x] + s[i + 1..];
    OthersAppend(s[..i] + [s[i]], s[i + 1..], refs, k, id);
    OthersAppend(s[..i], [s[i]], refs, k, id);
    OthersAppend(s[..i] + [x], s[i + 1..], refs, k, id);
    OthersAppend(s[..i], [x], refs, k, id);
  }

  /** Splicing out a targeting subdocument leaves the other subdocuments as they
      were, in order. */
  lemma OthersSplice<T>(s: seq<T>, i: int, refs: T -> Refs, k: Kind, id: Id)
    requires 0 <= i < |s| && Targets(refs, s[i], k, id)
    ensures Others(Spliced(s, i), refs, k, id) == Others(s, refs, k, id)
  {
    assert s == s[..i] + [s[i]] + s[i + 1..];
    OthersAppend(s[..i] + [s[i]], s[i + 1..], refs, k, id);
    OthersAppend(s[..i], [s[i]], refs, k, id);
    OthersAppend(s[..i], s[i + 1..], refs, k, id);
  }

  /** In a list with one entry per target, the targeting subdocuments are just
      the first match, if any. */
  lemma {:induction false} TargetingOfUnique<T>(s: seq<T>, refs: T -> Refs, k: Kind, id: Id)
    requires AtMostOnePerTarget(s, refs)
    ensures var i := IndexOf(s, refs, k, id);
      Targeting(s, refs, k, id) == if i == -1 then [] else [s[i]]
    decreases |s|
  {
    if |s| > 0 {
      assert AtMostOnePerTarget(s[1..], refs) by {
        forall a, b, k' | 0 <= a < b < |s| - 1 && refs(s[1..][a]).Get(k').Some?
          ensures refs(s[1..][a]).Get(k') != refs(s[1..][b]).Get(k')
        {
          assert s[1..][a] == s[a + 1] && s[1..][b] == s[b + 1];
        }
      }
      TargetingOfUnique(s[1..], refs, k, id);
      if Targets(refs, s[0], k, id) {
        forall m | 0 <= m < |s| - 1
          ensures !Targets(refs, s[1..][m], k, id)
        {
          assert s[1..][m] == s[m + 1];
        }
      }
    }
  }

  /** With one entry per target, splicing out the first match leaves no entry
      for that target. */
  lemma SpliceLeavesNoTarget<T>(s: seq<T>, refs: T -> Refs, k: Kind, id: Id)
    requires AtMostOnePerTarget(s, refs)
    requires IndexOf(s, refs, k, id) != -1
    ensures IndexOf(Spliced(s, IndexOf(s, refs, k, id)), refs, k, id) == -1
  {
    var i := IndexOf(s, refs, k, id);
    var r := Spliced(s, i);
    forall m | 0 <= m < |r|
      ensures !Targets(refs, r[m], k, id)
    {
      if m < i {
        assert r[m] == s[m];
      } else {
        assert r[m] == s[m + 1];
      }
    }
  }

  /** Splicing keeps one entry per target. */
  lemma SpliceKeepsUnique<T>(s: seq<T>, i: int, refs: T -> Refs)
    requires 0 <= i < |s| && AtMostOnePerTarget(s, refs)
    ensures AtMostOnePerTarget(Spliced(s, i), refs)
  {
    var r := Spliced(s, i);
    forall a, b, k | 0 <= a < b < |r| && refs(r[a]).Get(k).Some?
      ensures refs(r[a]).Get(k) != refs(r[b]).Get(k)
    {
      var a' := if a < i then a else a + 1;
      var b' := if b < i then b else b + 1;
      assert r[a] == s[a'] && r[b] == s[b'];
    }
  }

  /** Appending a subdocument for a target not yet present keeps one entry per
      target, provided the new subdocument carries only that reference. */
  lemma AppendKeepsUnique<T>(s: seq<T>, x: T, refs: T -> Refs, k: Kind, id: Id)
    requires AtMostOnePerTarget(s, refs)
    requires IndexOf(s, refs, k, id) == -1
    requires refs(x) == RefsTo(k, id)
    ensures AtMostOnePerTarget(s + [x], refs)
  {
    var r := s + [x];
    forall a, b, k' | 0 <= a < b < |r| && refs(r[a]).Get(k').Some?
      ensures refs(r[a]).Get(k') != refs(r[b]).Get(k')
    {
      if b < |s| {
        assert r[a] == s[a] && r[b] == s[b];
      } else {
        assert r[a] == s[a] && r[b] == x;
        if k' == k {
          assert !Targets(refs, s[a], k, id);
        }
      }
    }
  }

  /** Changing a subdocument without changing its references keeps one entry
      per target. */
  lemma UpdateKeepsUnique<T>(s: seq<T>, i: int, x: T, refs: T -> Refs)
    requires 0 <= i < |s| && AtMostOnePerTarget(s, refs) && refs(x) == refs(s[i])
    ensures AtMostOnePerTarget(s[i := x], refs)
  {
    var r := s[i := x];
    forall a, b, k | 0 <= a < b < |r| && refs(r[a]).Get(k).Some?
      ensures refs(r[a]).Get(k) != refs(r[b]).Get(k)
    {
      assert refs(r[a]) == refs(s[a]) && refs(r[b]) == refs(s[b]);
    }
  }
  /** Without a targeting subdocument, the other subdocuments are the whole list. */
  lemma {:induction false} OthersOfAbsent<T>(s: seq<T>, refs: T -> Refs, k: Kind, id: Id)
    requires IndexOf(s, refs, k, id) == -1
    ensures Others(s, refs, k, id) == s
    ensures Targeting(s, refs, k, id) == []
    decreases |s|
  {
    if |s| > 0 {
      assert IndexOf(s[1..], refs, k, id) == -1 by {
        forall m | 0 <= m < |s| - 1
          ensures !Targets(refs, s[1..][m], k, id)
        {
          assert s[1..][m] == s[m + 1];
        }
      }
      OthersOfAbsent(s[1..], refs, k, id);
      assert s == [s[0]] + s[1..];
    }
  }

  /** Splicing never brings a target in. */
  lemma SpliceKeepsAbsent<T>(s: seq<T>, i: int, refs: T -> Refs, k: Kind, id: Id)
    requires 0 <= i < |s| && IndexOf(s, refs, k, id) == -1
    ensures IndexOf(Spliced(s, i), refs, k, id) == -1
  {
    var r := Spliced(s, i);
    forall m | 0 <= m < |r|
      ensures !Targets(refs, r[m], k, id)
    {
      if m < i {
        assert r[m] == s[m];
      } else {
        assert r[m] == s[m + 1];
      }
    }
  }
  /** Changing the first match without changing its references leaves it the
      first match. */
  lemma IndexOfAfterUpdate<T>(s: seq<T>, i: int, x: T, refs: T -> Refs, k: Kind, id: Id)
    requires 0 <= i < |s| && IndexOf(s, refs, k, id) == i && refs(x) == refs(s[i])
    ensures IndexOf(s[i := x], refs, k, id) == i
  {
    var r := s[i := x];
    assert Targets(refs, r[i], k, id);
    assert forall j :: 0 <= j < i ==> r[j] == s[j];
  }
}
