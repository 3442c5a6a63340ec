/**
 * The holdings list of one user (db["holdings"] in fund_app.py) and the two
 * ways the page maintains it: save-by-code, which replaces any holding with
 * the same code, and delete-by-code.
 */
module Holdings {

  /** One entry of db["holdings"]: {"code", "shares", "cost"}. */
  datatype Holding = Holding(code: string, shares: real, cost: real)

  /** `a` is `b` with some elements dropped and the rest in their original order. */
  predicate IsSubsequence<T(==)>(a: seq<T>, b: seq<T>)
    decreases |b|
  {
    a == [] ||
    (b != [] && ((a[0] == b[0] && IsSubsequence(a[1..], b[1..])) || IsSubsequence(a, b[1..])))
  }

  /** Appending the same element to both sides, or to the longer side only, keeps a subsequence. */
  lemma {:induction false} SubsequenceSnoc<T>(a: seq<T>, b: seq<T>, x: T)
    requires IsSubsequence(a, b)
    ensures IsSubsequence(a + [x], b + [x])
    ensures IsSubsequence(a, b + [x])
    decreases |b|
  {
    if b == [] {
      assert a == [];
      assert a + [x] == b + [x] == [x];
      assert IsSubsequence([x][1..], [x][1..]);
    } else {
      assert (b + [x])[1..] == b[1..] + [x];
      if a == [] {
        SubsequenceSnoc(a, b[1..], x);
        assert a + [x] == [x];
      } else {
        assert (a + [x])[1..] == a[1..] + [x];
        if a[0] == b[0] && IsSubsequence(a[1..], b[1..]) {
          SubsequenceSnoc(a[1..], b[1..], x);
        } else {
          SubsequenceSnoc(a, b[1..], x);
        }
      }
    }
  }

  /** Holdings are keyed by code: no two entries share one. */
  predicate UniqueCodes(hs: seq<Holding>) {
    forall i, j :: 0 <= i < j < |hs| ==> hs[i].code != hs[j].code
  }

  /** [x for x in hs if x["code"] != code] */
  function WithoutCode(hs: seq<Holding>, code: string): (r: seq<Holding>)
    ensures |r| <= |hs|
    ensures forall h :: multiset(r)[h] == if h.code == code then 0 else multiset(hs)[h]
    ensures forall i :: 0 <= i < |r| ==> r[i].code != code
  {
    if hs == [] then []
    else
      assert hs == [hs[0]] + hs[1..];
      if hs[0].code == code then WithoutCode(hs[1..], code)
      else [hs[0]] + WithoutCode(hs[1..], code)
  }

  /** Filtering keeps the remaining holdings in their original relative order. */
  lemma {:induction false} WithoutCodeKeepsOrder(hs: seq<Holding>, code: string)
    ensures IsSubsequence(WithoutCode(hs, code), hs)
  {
    if hs != [] {
      WithoutCodeKeepsOrder(hs[1..], code);
    }
  }

  /** Filtering distributes over concatenation. */
  lemma {:induction false} WithoutCodeAppend(a: seq<Holding>, b: seq<Holding>, code: string)
    ensures WithoutCode(a + b, code) == WithoutCode(a, code) + WithoutCode(b, code)
  {
    if a == [] {
      assert a + b == b;
    } else {
      assert (a + b)[1..] == a[1..] + b;
      WithoutCodeAppend(a[1..], b, code);
    }
  }

  /** When no holding has the code, nothing is removed. */
  lemma {:induction false} WithoutAbsentCode(hs: seq<Holding>, code: string)
    requires forall i :: 0 <= i < |hs| ==> hs[i].code != code
    ensures WithoutCode(hs, code) == hs
  {
    if hs != [] {
      WithoutAbsentCode(hs[1..], code);
    }
  }

  /** Deleting twice is deleting once. */
  lemma WithoutCodeIdempotent(hs: seq<Holding>, code: string)
    ensures WithoutCode(WithoutCode(hs, code), code) == WithoutCode(hs, code)
  {
    WithoutAbsentCode(WithoutCode(hs, code), code);
  }

  /** Deleting keeps the codes unique. */
  lemma {:induction false} WithoutCodeKeepsUnique(hs: seq<Holding>, code: string)
    requires UniqueCodes(hs)
    ensures UniqueCodes(WithoutCode(hs, code))
  {
    if hs != [] {
      WithoutCodeKeepsUnique(hs[1..], code);
      var rest := WithoutCode(hs[1..], code);
      assert forall h :: h in rest ==> h in hs[1..];
      assert forall i :: 0 <= i < |rest| ==> rest[i] in hs[1..];
    }
  }

  /**
   * The holdings after saving `h`: every entry with h's code removed, `h`
   * appended (fund_app.py, lines 166-167).
   */
  function Upserted(hs: seq<Holding>, h: Holding): (r: seq<Holding>)
    ensures |r| >= 1 && r[|r| - 1] == h
    ensures forall i :: 0 <= i < |r| - 1 ==> r[i].code != h.code
    ensures forall x: Holding :: x.code != h.code ==> multiset(r)[x] == multiset(hs)[x]
  {
    WithoutCode(hs, h.code) + [h]
  }

  /** Every other holding stays, in its original relative order, ahead of the saved one. */
  lemma UpsertedKeepsOrder(hs: seq<Holding>, h: Holding)
    ensures var r := Upserted(hs, h); IsSubsequence(r[..|r| - 1], hs)
  {
    var r := Upserted(hs, h);
    assert r[..|r| - 1] == WithoutCode(hs, h.code);
    WithoutCodeKeepsOrder(hs, h.code);
  }

  /** Saving keeps codes unique, whatever the saved code. */
  lemma UpsertedKeepsUnique(hs: seq<Holding>, h: Holding)
    requires UniqueCodes(hs)
    ensures UniqueCodes(Upserted(hs, h))
  {
    WithoutCodeKeepsUnique(hs, h.code);
  }

  /** Saving the same holding twice is saving it once. */
  lemma UpsertIdempotent(hs: seq<Holding>, h: Holding)
    ensures Upserted(Upserted(hs, h), h) == Upserted(hs, h)
  {
    var w := WithoutCode(hs, h.code);
    WithoutCodeAppend(w, [h], h.code);
    WithoutCodeIdempotent(hs, h.code);
    assert WithoutCode([h], h.code) == [];
  }

  /** Deleting a code just saved removes the saved holding together with the older ones. */
  lemma RemoveAfterUpsert(hs: seq<Holding>, h: Holding)
    ensures WithoutCode(Upserted(hs, h), h.code) == WithoutCode(hs, h.code)
  {
    var w := WithoutCode(hs, h.code);
    WithoutCodeAppend(w, [h], h.code);
    WithoutCodeIdempotent(hs, h.code);
    assert WithoutCode([h], h.code) == [];
    assert w + [] == w;
  }

  /** The holdings document of the current user, changed in place by the management form. */
  class Database {
    var holdings: seq<Holding>

    /** The document as loaded (an empty list when no file exists). */
    constructor (holdings: seq<Holding>)
      ensures this.holdings == holdings
    {
      this.holdings := holdings;
    }

    /** "确认保存并刷新": save only a non-empty code with positive shares, replacing its old entry. */
    method SaveHolding(code: string, shares: real, cost: real) returns (saved: bool)
      modifies this
      ensures saved <==> code != [] && shares > 0.0
      ensures holdings == if saved then Upserted(old(holdings), Holding(code, shares, cost)) else old(holdings)
      ensures UniqueCodes(old(holdings)) ==> UniqueCodes(holdings)
    {
      saved := code != [] && shares > 0.0;
      if saved {
        var newHoldings := WithoutCode(holdings, code);
        newHoldings := newHoldings + [Holding(code, shares, cost)];
        if UniqueCodes(holdings) {
          UpsertedKeepsUnique(holdings, Holding(code, shares, cost));
        }
        holdings := newHoldings;
      }
    }

    /** "确认删除": drop every holding with the target code. */
    method RemoveHolding(target: string)
      modifies this
      ensures holdings == WithoutCode(old(holdings), target)
      ensures forall i :: 0 <= i < |holdings| ==> holdings[i].code != target
      ensures UniqueCodes(old(holdings)) ==> UniqueCodes(holdings)
    {
      if UniqueCodes(holdings) {
        WithoutCodeKeepsUnique(holdings, target);
      }
      holdings := WithoutCode(holdings, target);
    }
  }
}
