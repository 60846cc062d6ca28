/** Tokens of a trusted SQL fragment and the caller's named query parameters,
    shared by both dialects. */
module FragmentTokens {
  import opened Sequences
  import opened PredicateIr
  import opened SqlText

  /** A character that is copied, or a marker that names a parameter. */
  datatype Token = Ch(c: char) | Mark(name: string)

  function Keys(parameters: seq<(string, Scalar)>): (r: seq<string>)
    ensures |r| == |parameters| && forall i | 0 <= i < |r| :: r[i] == parameters[i].0
  {
    seq(|parameters|, i requires 0 <= i < |parameters| => parameters[i].0)
  }

  function ToMap(parameters: seq<(string, Scalar)>): (m: map<string, Scalar>)
    ensures forall k :: k in m <==> k in Keys(parameters)
  {
    if parameters == [] then map[]
    else
      var front := parameters[..|parameters| - 1];
      var last := parameters[|parameters| - 1];
      assert Keys(parameters) == Keys(front) + [last.0];
      ToMap(front)[last.0 := last.1]
  }

  lemma LastName(parameters: seq<(string, Scalar)>)
    requires parameters != [] && Distinct(Keys(parameters))
    ensures var n := |parameters| - 1;
            Distinct(Keys(parameters[..n])) && parameters[n].0 !in ToMap(parameters[..n])
  {
    var n, names := |parameters| - 1, Keys(parameters);
    assert Keys(parameters[..n]) == names[..n];
    assert forall i | 0 <= i < n :: names[i] != names[n];
  }

  /** With distinct names every parameter keeps its own value. */
  lemma {:induction false} ToMapHas(parameters: seq<(string, Scalar)>, i: nat)
    requires i < |parameters| && Distinct(Keys(parameters))
    ensures parameters[i].0 in ToMap(parameters) && ToMap(parameters)[parameters[i].0] == parameters[i].1
    decreases |parameters|
  {
    hide Distinct, Keys;
    var n := |parameters| - 1;
    LastName(parameters);
    if i < n {
      ToMapHas(parameters[..n], i);
    }
  }

  lemma {:induction false} ToMapSize(parameters: seq<(string, Scalar)>)
    requires Distinct(Keys(parameters))
    ensures |ToMap(parameters)| == |parameters|
  {
    hide Distinct, Keys;
    if parameters != [] {
      var n := |parameters| - 1;
      var last, front := parameters[n], ToMap(parameters[..n]);
      LastName(parameters);
      ToMapSize(parameters[..n]);
      assert front[last.0 := last.1].Keys == front.Keys + {last.0};
    }
  }

  /** The marker names of the tokens, in order. */
  function MarkNames(ts: seq<Token>): seq<string> {
    if ts == [] then []
    else if ts[0].Mark? then [ts[0].name] + MarkNames(ts[1..])
    else MarkNames(ts[1..])
  }

  lemma {:induction false} MarkNamesConcat(a: seq<Token>, b: seq<Token>)
    ensures MarkNames(a + b) == MarkNames(a) + MarkNames(b)
  {
    if a == [] {
      assert a + b == b;
    } else {
      assert (a + b)[1..] == a[1..] + b;
      MarkNamesConcat(a[1..], b);
    }
  }

  function TokenPiece(t: Token): Piece {
    match t case Ch(c) => Raw(c) case Mark(_) => Slot
  }

  function TokenPieces(ts: seq<Token>): (r: seq<Piece>)
    ensures |r| == |ts| && forall i | 0 <= i < |ts| :: r[i] == TokenPiece(ts[i])
  {
    seq(|ts|, i requires 0 <= i < |ts| => TokenPiece(ts[i]))
  }

  lemma TokenNames(ts: seq<Token>)
    ensures SafePieces(TokenPieces(ts)) && NamesPercentFree(TokenPieces(ts))
  {
  }
}
