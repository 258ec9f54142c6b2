/** The two ways the scrapers make lists duplicate-free: `list(set(xs))` inside
    one extraction, and the session ledger (`seen_phones`, `seen_contacts`) that
    admits an item only the first time any page yields it. */
module Dedup {

  predicate NoDup(s: seq<string>) {
    forall i, j :: 0 <= i < j < |s| ==> s[i] != s[j]
  }

  function Elems(s: seq<string>): set<string> {
    set x | x in s
  }

  /** `list(set(xs))`. Python leaves the order to the hash of each element; the model
      fixes it to the order of first occurrence. */
  function Distinct(s: seq<string>): (r: seq<string>)
    ensures NoDup(r)
    ensures forall x :: x in r <==> x in s
    ensures |r| <= |s|
  {
    if s == [] then []
    else
      var r := Distinct(s[..|s| - 1]);
      var x := s[|s| - 1];
      assert forall y :: y in s <==> y in s[..|s| - 1] || y == x;
      if x in r then r else r + [x]
  }

  /** The first-occurrence loop of `extract_page_info` and of `crawl`: walk `xs`,
      keep an item when it is not yet in `seen`, and add it to `seen`. */
  function Admit(xs: seq<string>, seen: set<string>): (r: seq<string>)
    ensures NoDup(r)
    ensures forall x :: x in r <==> x in xs && x !in seen
  {
    if xs == [] then []
    else if xs[0] in seen then Admit(xs[1..], seen)
    else
      var rest := Admit(xs[1..], seen + {xs[0]});
      assert forall x :: x in xs <==> x == xs[0] || x in xs[1..];
      [xs[0]] + rest
  }

  /** A ledger step: the admitted items and the grown set. */
  lemma {:induction false} AdmitGrowsSeenByExactly(xs: seq<string>, seen: set<string>)
    ensures Elems(Admit(xs, seen)) !! seen
    ensures seen + Elems(xs) == seen + Elems(Admit(xs, seen))
    ensures |seen + Elems(xs)| == |seen| + |Admit(xs, seen)|
  {
    var r := Admit(xs, seen);
    assert Elems(r) !! seen;
    assert seen + Elems(xs) == seen + Elems(r);
    DistinctCard(r);
  }

  /** A duplicate-free list has as many elements as its set. */
  lemma {:induction false} DistinctCard(s: seq<string>)
    requires NoDup(s)
    ensures |Elems(s)| == |s|
  {
    if s != [] {
      var t := s[..|s| - 1];
      assert NoDup(t);
      DistinctCard(t);
      assert Elems(s) == Elems(t) + {s[|s| - 1]};
      assert s[|s| - 1] !in Elems(t);
    }
  }

  /** Running `Admit` over one list with the set it leaves behind, then over another,
      never returns an item twice: the basis of global uniqueness across pages. */
  lemma NoDupAppend(a: seq<string>, b: seq<string>)
    requires NoDup(a) && NoDup(b) && Elems(a) !! Elems(b)
    ensures NoDup(a + b)
  {
    forall i, j | 0 <= i < j < |a + b| ensures (a + b)[i] != (a + b)[j] {
      if j >= |a| && i < |a| {
        assert (a + b)[i] in Elems(a);
        assert (a + b)[j] in Elems(b);
      }
    }
  }

  lemma ElemsAppend(a: seq<string>, b: seq<string>)
    ensures Elems(a + b) == Elems(a) + Elems(b)
  {
  }

  /** A list that names each element of `seen` exactly once. */
  predicate Exact(all: seq<string>, seen: set<string>) {
    NoDup(all) && Elems(all) == seen
  }

  /** Appending what `Admit` lets through keeps a list exact for the grown set. */
  lemma ExactStep(all: seq<string>, seen: set<string>, xs: seq<string>)
    requires Exact(all, seen)
    ensures Exact(all + Admit(xs, seen), seen + Elems(xs))
  {
    AdmitGrowsSeenByExactly(xs, seen);
    ElemsAppend(all, Admit(xs, seen));
    NoDupAppend(all, Admit(xs, seen));
  }

  /** `Admit` unfolded once at index `i`. */
  lemma AdmitAt(xs: seq<string>, i: nat, seen: set<string>)
    requires i < |xs|
    ensures Admit(xs[i..], seen) ==
      if xs[i] in seen then Admit(xs[i + 1..], seen) else [xs[i]] + Admit(xs[i + 1..], seen + {xs[i]})
  {
    assert xs[i..][1..] == xs[i + 1..];
  }

  lemma PrefixElems(xs: seq<string>, i: nat)
    requires i < |xs|
    ensures Elems(xs[..i + 1]) == Elems(xs[..i]) + {xs[i]}
  {
    assert xs[..i + 1] == xs[..i] + [xs[i]];
  }

  /** One turn of the first-occurrence loop on an item already seen: nothing is admitted. */
  lemma AdmitSkip(xs: seq<string>, seen: set<string>, i: nat, admitted: seq<string>, seen': set<string>)
    requires i < |xs| && xs[i] in seen'
    requires admitted + Admit(xs[i..], seen') == Admit(xs, seen)
    requires seen' == seen + Elems(xs[..i])
    ensures admitted + Admit(xs[i + 1..], seen') == Admit(xs, seen)
    ensures seen' == seen + Elems(xs[..i + 1])
  {
    AdmitAt(xs, i, seen');
    PrefixElems(xs, i);
  }

  /** One turn of the first-occurrence loop on a new item: it is admitted and seen. */
  lemma AdmitTake(xs: seq<string>, seen: set<string>, i: nat, admitted: seq<string>, seen': set<string>)
    requires i < |xs| && xs[i] !in seen'
    requires admitted + Admit(xs[i..], seen') == Admit(xs, seen)
    requires seen' == seen + Elems(xs[..i])
    ensures (admitted + [xs[i]]) + Admit(xs[i + 1..], seen' + {xs[i]}) == Admit(xs, seen)
    ensures seen' + {xs[i]} == seen + Elems(xs[..i + 1])
  {
    AdmitAt(xs, i, seen');
    PrefixElems(xs, i);
    var rest := Admit(xs[i + 1..], seen' + {xs[i]});
    assert Admit(xs[i..], seen') == [xs[i]] + rest;
    assert admitted + ([xs[i]] + rest) == (admitted + [xs[i]]) + rest;
  }

  /** When the loop has walked all of `xs`, it has computed `Admit(xs, seen)`. */
  lemma AdmitDone(xs: seq<string>, seen: set<string>, admitted: seq<string>, seen': set<string>)
    requires admitted + Admit(xs[|xs|..], seen') == Admit(xs, seen)
    requires seen' == seen + Elems(xs[..|xs|])
    ensures admitted == Admit(xs, seen)
    ensures seen' == seen + Elems(xs)
    ensures |seen'| == |seen| + |admitted|
  {
    assert xs[|xs|..] == [];
    assert xs[..|xs|] == xs;
    AdmitGrowsSeenByExactly(xs, seen);
  }

  /** The first-occurrence loop over one extracted list against one ledger set. */
  method AdmitNew(xs: seq<string>, seen: set<string>) returns (admitted: seq<string>, seen': set<string>)
    ensures admitted == Admit(xs, seen)
    ensures seen' == seen + Elems(xs)
    ensures |seen'| == |seen| + |admitted|
  {
    admitted := [];
    seen' := seen;
    for i := 0 to |xs|
      invariant admitted + Admit(xs[i..], seen') == Admit(xs, seen)
      invariant seen' == seen + Elems(xs[..i])
    {
      if xs[i] !in seen' {
        AdmitTake(xs, seen, i, admitted, seen');
        admitted := admitted + [xs[i]];
        seen' := seen' + {xs[i]};
      } else {
        AdmitSkip(xs, seen, i, admitted, seen');
      }
    }
    AdmitDone(xs, seen, admitted, seen');
  }
}
