/** Fresh, memoised tokens. */
module Allocation {
  import opened Pii
  import opened Tokens
  import opened Sets

  // ----- what allocation means

  // The first number above `from` whose token the text does not contain.
  ghost predicate IsFirstFree(text: string, kind: string, from: nat, n: nat) {
    && from < n && !Occurs(text, Token(kind, n))
    && forall m :: from < m < n ==> Occurs(text, Token(kind, m))
  }

  ghost predicate BlockedAt(text: string, kind: string, from: nat, i: int) {
    exists n: nat :: from < n && OccursAt(text, Token(kind, n), i)
  }

  // The places where the text already holds a token of this kind numbered above `from`.
  ghost function Blocked(text: string, kind: string, from: nat): (s: set<int>)
    ensures |s| <= |text| + 1
  {
    var s := set i | i in Below(|text| + 1) && BlockedAt(text, kind, from, i);
    SubsetSize(s, Below(|text| + 1));
    s
  }

  // At one place of the text there is at most one token of a kind, whatever the kind.
  lemma OneNumberPerPlace(text: string, kind: string, m: nat, n: nat, i: int)
    requires OccursAt(text, Token(kind, m), i) && OccursAt(text, Token(kind, n), i)
    ensures m == n
  {
    if |Token(kind, m)| < |Token(kind, n)| {
      NumberEndsOnce(text, kind, m, n, i);
    } else if |Token(kind, n)| < |Token(kind, m)| {
      NumberEndsOnce(text, kind, n, m, i);
    } else {
      SameKindTokens(kind, m, n);
    }
  }

  // The shorter token would close where the longer one still has a digit.
  lemma NumberEndsOnce(text: string, kind: string, m: nat, n: nat, i: int)
    requires OccursAt(text, Token(kind, m), i) && OccursAt(text, Token(kind, n), i)
    ensures |Token(kind, m)| >= |Token(kind, n)|
  {
    var s, t := Token(kind, m), Token(kind, n);
    DecimalIsDigits(n);
    assert forall j :: 0 <= j < |s| ==> s[j] == text[i + j];
    assert forall j :: 0 <= j < |t| ==> t[j] == text[i + j];
    assert forall j :: |kind| + 2 <= j < |t| - 1 ==> t[j] == Decimal(n)[j - |kind| - 2];
    assert s[|s| - 1] == '>';
    assert forall j :: 0 <= j < |s| && j < |t| ==> t[j] == s[j];
  }

  lemma SameKindTokens(kind: string, m: nat, n: nat)
    requires Token(kind, m) == Token(kind, n)
    ensures m == n
  {
    var t := Token(kind, m);
    assert t[|kind| + 2..|t| - 1] == Decimal(m) == Decimal(n);
    DecimalInjective(m, n);
  }

  // Passing over a taken number leaves strictly fewer blocked places: the search ends.
  lemma SkippingShrinksBlocked(text: string, kind: string, from: nat)
    requires Occurs(text, Token(kind, from + 1))
    ensures |Blocked(text, kind, from + 1)| < |Blocked(text, kind, from)|
  {
    var i :| 0 <= i <= |text| && OccursAt(text, Token(kind, from + 1), i);
    var big, small := Blocked(text, kind, from), Blocked(text, kind, from + 1);
    assert i in big;
    if i in small {
      var n: nat :| from + 1 < n && OccursAt(text, Token(kind, n), i);
      OneNumberPerPlace(text, kind, from + 1, n, i);
    }
    assert small <= big - {i};
    SubsetSize(small, big - {i});
  }

  ghost function FirstFree(text: string, kind: string, from: nat): (n: nat)
    ensures IsFirstFree(text, kind, from, n)
    ensures n <= from + 1 + |Blocked(text, kind, from)|
    decreases |Blocked(text, kind, from)|
  {
    if Occurs(text, Token(kind, from + 1)) then
      SkippingShrinksBlocked(text, kind, from);
      FirstFree(text, kind, from + 1)
    else
      from + 1
  }

  lemma FirstFreeStep(text: string, kind: string, from: nat)
    ensures Occurs(text, Token(kind, from + 1)) ==>
              && FirstFree(text, kind, from) == FirstFree(text, kind, from + 1)
              && |Blocked(text, kind, from + 1)| < |Blocked(text, kind, from)|
    ensures !Occurs(text, Token(kind, from + 1)) ==> FirstFree(text, kind, from) == from + 1
  {
    if Occurs(text, Token(kind, from + 1)) {
      SkippingShrinksBlocked(text, kind, from);
    }
  }

  // ----- the allocator's state

  datatype State = State(counters: map<string, nat>, mappings: map<string, map<string, string>>)

  const EMPTY := State(map[], map[])

  predicate Has(st: State, kind: string, value: string) {
    kind in st.mappings && value in st.mappings[kind]
  }

  function Lookup(st: State, kind: string, value: string): string
    requires Has(st, kind, value)
  {
    st.mappings[kind][value]
  }

  function Counter(st: State, kind: string): nat {
    if kind in st.counters then st.counters[kind] else 0
  }

  function KindMap(st: State, kind: string): map<string, string> {
    if kind in st.mappings then st.mappings[kind] else map[]
  }

  ghost function Allocated(text: string, st: State, kind: string, value: string): (st': State)
    ensures Has(st', kind, value)
  {
    if Has(st, kind, value) then st
    else
      var n := FirstFree(text, kind, Counter(st, kind));
      State(st.counters[kind := n], st.mappings[kind := KindMap(st, kind)[value := Token(kind, n)]])
  }

  // Every token handed out was numbered by its kind's counter, is not in the
  // text, and stands for one value.
  ghost predicate Consistent(text: string, st: State) {
    && (forall k, v :: Has(st, k, v) ==>
          exists n: nat :: n <= Counter(st, k) && Lookup(st, k, v) == Token(k, n))
    && (forall k, v :: Has(st, k, v) ==> !Occurs(text, Lookup(st, k, v)))
    && (forall k, v, w :: Has(st, k, v) && Has(st, k, w) && Lookup(st, k, v) == Lookup(st, k, w) ==> v == w)
  }

  ghost predicate Extends(st: State, st': State) {
    forall k, v :: Has(st, k, v) ==> Has(st', k, v) && Lookup(st', k, v) == Lookup(st, k, v)
  }

  // The token returned is not in the text, earlier ones stay as they were, and the
  // counter passes no more numbers than the text has places that block them.
  lemma AllocatedIsConsistent(text: string, st: State, kind: string, value: string)
    requires Consistent(text, st)
    ensures Consistent(text, Allocated(text, st, kind, value))
    ensures Extends(st, Allocated(text, st, kind, value))
    ensures !Occurs(text, Lookup(Allocated(text, st, kind, value), kind, value))
    ensures Counter(Allocated(text, st, kind, value), kind)
         <= Counter(st, kind) + 1 + |Blocked(text, kind, Counter(st, kind))|
  {
    if !Has(st, kind, value) {
      var st' := Allocated(text, st, kind, value);
      var n := FirstFree(text, kind, Counter(st, kind));
      forall k, v | Has(st', k, v)
        ensures exists m: nat :: m <= Counter(st', k) && Lookup(st', k, v) == Token(k, m)
        ensures !Occurs(text, Lookup(st', k, v))
      {
        if k == kind && v == value {
          assert Lookup(st', k, v) == Token(k, n);
        } else {
          assert Has(st, k, v) && Lookup(st', k, v) == Lookup(st, k, v);
          var m: nat :| m <= Counter(st, k) && Lookup(st, k, v) == Token(k, m);
          assert m <= Counter(st', k);
        }
      }
      forall k, v, w | Has(st', k, v) && Has(st', k, w) && Lookup(st', k, v) == Lookup(st', k, w)
        ensures v == w
      {
        NewTokenIsNew(text, st, kind, value, k, v, w);
      }
    }
  }

  lemma NewTokenIsNew(text: string, st: State, kind: string, value: string, k: string, v: string, w: string)
    requires Consistent(text, st) && !Has(st, kind, value)
    requires var st' := Allocated(text, st, kind, value);
      Has(st', k, v) && Has(st', k, w) && Lookup(st', k, v) == Lookup(st', k, w)
    ensures v == w
  {
    var n := FirstFree(text, kind, Counter(st, kind));
    forall u | Has(st, kind, u) ensures Lookup(st, kind, u) != Token(kind, n) {
      var m: nat :| m <= Counter(st, kind) && Lookup(st, kind, u) == Token(kind, m);
      if Token(kind, m) == Token(kind, n) {
        SameKindTokens(kind, m, n);
      }
    }
    var st' := Allocated(text, st, kind, value);
    forall u | Has(st', k, u) && (k != kind || u != value)
      ensures Has(st, k, u) && Lookup(st', k, u) == Lookup(st, k, u)
    {
    }
  }

  // Across all well-formed kinds, one token means one kind and one value.
  lemma TokensAreInjective(text: string, st: State, k: string, v: string, l: string, w: string)
    requires Consistent(text, st) && WellFormedKind(k) && WellFormedKind(l)
    requires Has(st, k, v) && Has(st, l, w)
    ensures Lookup(st, k, v) == Lookup(st, l, w) ==> k == l && v == w
  {
    var m: nat :| Lookup(st, k, v) == Token(k, m);
    var n: nat :| Lookup(st, l, w) == Token(l, n);
    if Token(k, m) == Token(l, n) {
      TokenInjective(k, m, l, n);
    }
  }

  // ----- the allocator

  class Allocator {
    const text: string
    var counters: map<string, nat>
    var mappings: map<string, map<string, string>>

    function Abs(): State
      reads this
    {
      State(counters, mappings)
    }

    constructor (text: string)
      ensures this.text == text && Abs() == EMPTY
    {
      this.text := text;
      counters := map[];
      mappings := map[];
    }

    method Allocate(kind: string, value: string) returns (token: string)
      modifies this
      ensures Abs() == Allocated(text, old(Abs()), kind, value)
      ensures token == Lookup(Abs(), kind, value)
    {
      if kind in mappings && value in mappings[kind] {
        return mappings[kind][value];
      }
      var known := if kind in mappings then mappings[kind] else map[];
      token := Search(kind);
      mappings := mappings[kind := known[value := token]];
    }

    // The counting loop: it leaves the kind's counter on the first free number.
    method Search(kind: string) returns (token: string)
      modifies `counters
      ensures var n := FirstFree(text, kind, Counter(old(Abs()), kind));
        counters == old(counters)[kind := n] && token == Token(kind, n)
    {
      var n := if kind in counters then counters[kind] else 0;
      ghost var start := n;
      while true
        invariant counters == old(counters)
        invariant FirstFree(text, kind, start) == FirstFree(text, kind, n)
        decreases |Blocked(text, kind, n)|
      {
        FirstFreeStep(text, kind, n);
        n := n + 1;
        token := Token(kind, n);
        if !Occurs(text, token) {
          counters := counters[kind := n];
          return;
        }
      }
    }
  }
}
