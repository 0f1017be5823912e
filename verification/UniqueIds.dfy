/** Fresh node ids: the base name, then `base_2`, `base_3`, ... until one is free. */
module UniqueIds {
  import opened Graph

  function Digit(d: nat): char
    requires d < 10
  {
    "0123456789"[d]
  }

  function Decimal(n: nat): string {
    if n < 10 then [Digit(n)] else Decimal(n / 10) + [Digit(n % 10)]
  }

  lemma {:induction false} DecimalInjective(m: nat, n: nat)
    requires Decimal(m) == Decimal(n)
    ensures m == n
  {
    var s, t := Decimal(m), Decimal(n);
    assert s[|s| - 1] == Digit(m % 10) && t[|t| - 1] == Digit(n % 10);
    if m >= 10 && n >= 10 {
      assert s[..|s| - 1] == Decimal(m / 10) && t[..|t| - 1] == Decimal(n / 10);
      DecimalInjective(m / 10, n / 10);
    }
  }

  /** The number that decimal digits spell. */
  function Spelled(s: string): int {
    if s == [] then 0 else 10 * Spelled(s[..|s| - 1]) + (s[|s| - 1] as int - '0' as int)
  }

  /** They spell the number they were made from, without a leading zero. */
  lemma {:induction false} DecimalSpells(n: nat)
    ensures Spelled(Decimal(n)) == n && Decimal(n) != "" && (n > 0 ==> Decimal(n)[0] != '0')
    ensures forall i :: 0 <= i < |Decimal(n)| ==> '0' <= Decimal(n)[i] <= '9'
  {
    var s := Decimal(n);
    if n >= 10 {
      DecimalSpells(n / 10);
      assert s[..|s| - 1] == Decimal(n / 10);
    } else {
      assert s[..|s| - 1] == "";
    }
    assert s[|s| - 1] as int - '0' as int == n % 10;
  }

  /** The k-th id tried, counting from 1. */
  function Candidate(base: Id, k: nat): Id {
    if k < 2 then base else base + "_" + Decimal(k)
  }

  lemma CandidateInjective(base: Id, j: nat, k: nat)
    requires 1 <= j && 1 <= k && Candidate(base, j) == Candidate(base, k)
    ensures j == k
  {
    if j >= 2 { assert Candidate(base, j)[|base| + 1..] == Decimal(j); }
    if k >= 2 { assert Candidate(base, k)[|base| + 1..] == Decimal(k); }
    if j >= 2 && k >= 2 { DecimalInjective(j, k); }
  }

  ghost predicate FirstFree(base: Id, existing: set<Id>, id: Id) {
    exists k: nat :: 1 <= k && id == Candidate(base, k) && id !in existing
      && forall j: nat :: 1 <= j < k ==> Candidate(base, j) in existing
  }

  function Numbered(base: Id, k: nat): Id {
    base + "_" + Decimal(k)
  }

  /** The base name if that is free, or else the first of it numbered from 2 that is. */
  lemma TriedInOrder(base: Id, taken: set<Id>, id: Id)
    requires FirstFree(base, taken, id)
    ensures || (id == base && base !in taken)
            || (base in taken && exists k: nat :: 2 <= k && id == Numbered(base, k) && id !in taken
                                                  && forall j: nat :: 2 <= j < k ==> Numbered(base, j) in taken)
  {
    var k: nat :| 1 <= k && id == Candidate(base, k) && id !in taken
      && forall j: nat :: 1 <= j < k ==> Candidate(base, j) in taken;
    assert Candidate(base, 1) == base;
    if k >= 2 {
      assert Candidate(base, 1) in taken && id == Numbered(base, k);
      forall j: nat | 2 <= j < k ensures Numbered(base, j) in taken { assert Candidate(base, j) in taken; }
    }
  }

  /** The search ends: every occupied candidate is a different element of the finite `existing`. */
  method UniqueId(base: Id, existing: set<Id>) returns (candidate: Id)
    ensures FirstFree(base, existing, candidate)
    ensures candidate !in existing
  {
    candidate := base;
    var counter := 2;
    ghost var tried: set<Id> := {};
    while candidate in existing
      invariant counter >= 2 && candidate == Candidate(base, counter - 1)
      invariant forall j: nat :: 1 <= j < counter - 1 ==> Candidate(base, j) in existing
      invariant forall t :: t in tried ==> exists j: nat :: 1 <= j < counter - 1 && t == Candidate(base, j)
      decreases existing - tried
    {
      if candidate in tried {
        var j: nat :| 1 <= j < counter - 1 && candidate == Candidate(base, j);
        CandidateInjective(base, j, counter - 1);
      }
      tried := tried + {candidate};
      candidate := base + "_" + Decimal(counter);
      counter := counter + 1;
    }
  }

  /** Ids given out one after another: each is the first free one, with the ids given before it taken. */
  ghost predicate GivenOut(bases: seq<Id>, occupied: set<Id>, given: seq<Id>) {
    && |given| == |bases|
    && forall i :: 0 <= i < |given| ==> FirstFree(bases[i], occupied + Elems(given[..i]), given[i])
  }

  lemma GivenOutSnoc(bases: seq<Id>, occupied: set<Id>, given: seq<Id>, i: nat, newId: Id)
    requires i < |bases| && GivenOut(bases[..i], occupied, given)
    requires FirstFree(bases[i], occupied + Elems(given), newId)
    ensures GivenOut(bases[..i + 1], occupied, given + [newId])
  {
    var more := given + [newId];
    assert more[..i] == given;
    forall k | 0 <= k < |more| ensures FirstFree(bases[..i + 1][k], occupied + Elems(more[..k]), more[k]) {
      if k < i {
        assert more[..k] == given[..k] && bases[..i + 1][k] == bases[..i][k];
      }
    }
  }

  method AllocateIds(bases: seq<Id>, occupied: set<Id>) returns (given: seq<Id>)
    ensures GivenOut(bases, occupied, given)
  {
    given := [];
    var taken := occupied;
    for i := 0 to |bases|
      invariant GivenOut(bases[..i], occupied, given) && taken == occupied + Elems(given)
    {
      var newId := UniqueId(bases[i], taken);
      GivenOutSnoc(bases, occupied, given, i, newId);
      given, taken := given + [newId], taken + {newId};
    }
    assert bases[..|bases|] == bases;
  }

  /** No id is given twice, and none was occupied. */
  lemma GivenDistinct(bases: seq<Id>, occupied: set<Id>, given: seq<Id>)
    requires GivenOut(bases, occupied, given)
    ensures forall i, j :: 0 <= i < j < |given| ==> given[i] != given[j]
    ensures forall i :: 0 <= i < |given| ==> given[i] !in occupied
  {
    forall i, j | 0 <= i < j < |given| ensures given[i] != given[j] {
      assert given[i] in given[..j];
    }
  }

  /** Each old id with the last new id given for it. */
  function IdMap(olds: seq<Id>, given: seq<Id>): map<Id, Id>
    requires |given| == |olds|
  {
    if olds == [] then map[]
    else
      var k := |olds| - 1;
      IdMap(olds[..k], given[..k])[olds[k] := given[k]]
  }

  lemma {:induction false} IdMapKeys(olds: seq<Id>, given: seq<Id>)
    requires |given| == |olds|
    ensures IdMap(olds, given).Keys == Elems(olds)
    ensures forall x :: x in IdMap(olds, given) ==>
      exists i :: 0 <= i < |olds| && olds[i] == x && IdMap(olds, given)[x] == given[i]
  {
    if olds != [] {
      var k := |olds| - 1;
      IdMapKeys(olds[..k], given[..k]);
      assert olds == olds[..k] + [olds[k]];
    }
  }

  lemma IdMapAt(olds: seq<Id>, given: seq<Id>, i: nat)
    requires |given| == |olds| && i < |olds| && forall j :: 0 <= j < |olds| && j != i ==> olds[j] != olds[i]
    ensures olds[i] in IdMap(olds, given) && IdMap(olds, given)[olds[i]] == given[i]
  {
    IdMapKeys(olds, given);
    assert olds[i] in Elems(olds);
  }

  lemma IdMapInjective(olds: seq<Id>, given: seq<Id>, x: Id, y: Id)
    requires |olds| == |given| && forall i, j :: 0 <= i < j < |given| ==> given[i] != given[j]
    requires x in IdMap(olds, given) && y in IdMap(olds, given) && IdMap(olds, given)[x] == IdMap(olds, given)[y]
    ensures x == y
  {
    IdMapKeys(olds, given);
  }

  /** Different old ids receive different new ids, all of them free before. */
  lemma IdMapFresh(olds: seq<Id>, bases: seq<Id>, occupied: set<Id>, given: seq<Id>)
    requires |olds| == |bases| && GivenOut(bases, occupied, given)
    ensures Injective(IdMap(olds, given))
    ensures forall x :: x in IdMap(olds, given) ==> IdMap(olds, given)[x] !in occupied
  {
    GivenDistinct(bases, occupied, given);
    IdMapKeys(olds, given);
    var m := IdMap(olds, given);
    forall x, y | x in m && y in m && m[x] == m[y] ensures x == y {
      IdMapInjective(olds, given, x, y);
    }
  }

  ghost predicate Injective(m: map<Id, Id>) {
    forall x, y :: x in m && y in m && m[x] == m[y] ==> x == y
  }

  /** The old id behind a new one; other ids stand for themselves. */
  ghost function Back(m: map<Id, Id>, v: Id): (x: Id)
    ensures if exists y :: y in m && m[y] == v then x in m && m[x] == v else x == v
  {
    if exists y :: y in m && m[y] == v then var y :| y in m && m[y] == v; y else v
  }
}
