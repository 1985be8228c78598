/** Handing the pieces of a plan their final tokens. */
module Tokenising {
  import opened Pii
  import opened Tokens
  import opened Allocation

  // The allocator after the first `k` pieces.
  ghost function StateAfter(text: string, pieces: seq<Replacement>, k: nat): State
    requires k <= |pieces|
  {
    if k == 0 then EMPTY
    else Allocated(text, StateAfter(text, pieces, k - 1), pieces[k - 1].kind, pieces[k - 1].original)
  }

  ghost function Tokenised(text: string, pieces: seq<Replacement>): (plan: seq<Replacement>)
    ensures |plan| == |pieces|
  {
    seq(|pieces|, i requires 0 <= i < |pieces| =>
      pieces[i].(token := Lookup(StateAfter(text, pieces, i + 1), pieces[i].kind, pieces[i].original)))
  }

  lemma {:induction false} StatesAreConsistent(text: string, pieces: seq<Replacement>, k: nat)
    requires k <= |pieces|
    ensures Consistent(text, StateAfter(text, pieces, k))
  {
    if k > 0 {
      StatesAreConsistent(text, pieces, k - 1);
      AllocatedIsConsistent(text, StateAfter(text, pieces, k - 1), pieces[k - 1].kind, pieces[k - 1].original);
    }
  }

  lemma NextStateExtends(text: string, pieces: seq<Replacement>, k: nat)
    requires k < |pieces|
    ensures Extends(StateAfter(text, pieces, k), StateAfter(text, pieces, k + 1))
  {
    StatesAreConsistent(text, pieces, k);
    AllocatedIsConsistent(text, StateAfter(text, pieces, k), pieces[k].kind, pieces[k].original);
  }

  lemma {:induction false} StatesExtend(text: string, pieces: seq<Replacement>, j: nat, k: nat)
    requires j <= k <= |pieces|
    ensures Extends(StateAfter(text, pieces, j), StateAfter(text, pieces, k))
    decreases k
  {
    if j < k {
      StatesExtend(text, pieces, j, k - 1);
      NextStateExtends(text, pieces, k - 1);
      ExtendsTransitive(StateAfter(text, pieces, j), StateAfter(text, pieces, k - 1), StateAfter(text, pieces, k));
    }
  }

  lemma ExtendsTransitive(a: State, b: State, c: State)
    requires Extends(a, b) && Extends(b, c)
    ensures Extends(a, c)
  {
  }

  // The token of a piece is still known when all are done.
  lemma TokenIsKept(text: string, pieces: seq<Replacement>, i: nat)
    requires i < |pieces|
    ensures var last := StateAfter(text, pieces, |pieces|);
      && Has(last, pieces[i].kind, pieces[i].original)
      && Tokenised(text, pieces)[i].token == Lookup(last, pieces[i].kind, pieces[i].original)
  {
    StatesExtend(text, pieces, i + 1, |pieces|);
    assert Has(StateAfter(text, pieces, i + 1), pieces[i].kind, pieces[i].original);
  }

  // No token of a plan occurs in the text it is for.
  lemma TokensAreFresh(text: string, pieces: seq<Replacement>, i: nat)
    requires i < |pieces|
    ensures var t := Tokenised(text, pieces)[i].token;
      !Occurs(text, t) && exists n: nat :: t == Token(pieces[i].kind, n)
  {
    var st := StateAfter(text, pieces, i + 1);
    StatesAreConsistent(text, pieces, i + 1);
    assert Has(st, pieces[i].kind, pieces[i].original);
  }

  // Two pieces get the same token exactly when they hide the same value of the same kind.
  lemma TokensMatchValues(text: string, pieces: seq<Replacement>, i: nat, j: nat)
    requires i < |pieces| && j < |pieces|
    requires WellFormedKind(pieces[i].kind) && WellFormedKind(pieces[j].kind)
    ensures var plan := Tokenised(text, pieces);
      plan[i].token == plan[j].token <==>
        pieces[i].kind == pieces[j].kind && pieces[i].original == pieces[j].original
  {
    StatesAreConsistent(text, pieces, |pieces|);
    TokenIsKept(text, pieces, i);
    TokenIsKept(text, pieces, j);
    TokensAreInjective(text, StateAfter(text, pieces, |pieces|),
                       pieces[i].kind, pieces[i].original, pieces[j].kind, pieces[j].original);
  }

  // `normalizeTokens`.
  method NormalizeTokens(text: string, pieces: seq<Replacement>) returns (plan: seq<Replacement>)
    ensures plan == Tokenised(text, pieces)
  {
    var allocator := new Allocator(text);
    plan := [];
    for i := 0 to |pieces|
      invariant allocator.text == text && allocator.Abs() == StateAfter(text, pieces, i)
      invariant fresh(allocator)
      invariant |plan| == i && forall j :: 0 <= j < i ==> plan[j] == Tokenised(text, pieces)[j]
    {
      var token := allocator.Allocate(pieces[i].kind, pieces[i].original);
      plan := plan + [pieces[i].(token := token)];
    }
  }
}
