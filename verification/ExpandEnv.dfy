/** Expanding host variables in a scenario file (cmd/edt/run.go): only ${NAME} with an
    environment-style name is replaced, everything else passes through. */
module ExpandEnv {
  import Text

  predicate IsNameChar(c: char, first: bool) { c == '_' || 'A' <= c <= 'Z' || (!first && '0' <= c <= '9') }

  predicate IsEnvNameSpec(k: string) { k != "" && forall i :: 0 <= i < |k| ==> IsNameChar(k[i], i == 0) }

  method IsEnvName(k: string) returns (r: bool)
    ensures r == IsEnvNameSpec(k)
    ensures r <==> k != "" && forall i :: 0 <= i < |k| ==>
                     k[i] == '_' || 'A' <= k[i] <= 'Z' || (i > 0 && '0' <= k[i] <= '9')
  {
    if k == "" {
      return false;
    }
    for i := 0 to |k|
      invariant forall j :: 0 <= j < i ==> IsNameChar(k[j], j == 0)
    {
      var c := k[i];
      if c == '_' || 'A' <= c <= 'Z' || (i > 0 && '0' <= c <= '9') {
      } else {
        return false;
      }
    }
    return true;
  }

  predicate OpensRef(s: string) { |s| >= 2 && s[0] == '$' && s[1] == '{' }

  function Ref(key: string): string { "${" + (key + "}") }

  /** What a reference becomes. */
  function Replaced(key: string, env: string -> string): string {
    if IsEnvNameSpec(key) then env(key) else Ref(key)
  }

  /** What is written for the head of a text, and the text that is left. */
  function Head(t: string, env: string -> string): string
    requires t != ""
  {
    if !OpensRef(t) then [t[0]]
    else
      var k := Text.IndexOf(t[2..], '}');
      if k == |t| - 2 then t else Replaced(t[2..2 + k], env)
  }

  function Rest(t: string): (r: string)
    requires t != ""
    ensures |r| < |t|
  {
    if !OpensRef(t) then t[1..]
    else
      var k := Text.IndexOf(t[2..], '}');
      if k == |t| - 2 then "" else t[3 + k..]
  }

  function Expand(t: string, env: string -> string): string
    decreases |t|
  {
    if t == "" then "" else Head(t, env) + Expand(Rest(t), env)
  }

  lemma Slices(s: string, i: nat, end: nat)
    requires i + 2 + end < |s|
    ensures var t, k := s[i..], i + 2 + end;
            t[2..] == s[i + 2..] && t[2..2 + end] == s[i + 2..k] && t[3 + end..] == s[k + 1..]
  {
  }

  lemma OneMore(whole: string, out: string, piece: string, rest: string, rest': string)
    requires whole == out + rest && rest == piece + rest'
    ensures whole == out + piece + rest'
  {
  }

  /** The loop body. */
  method WriteAt(s: string, i: nat, env: string -> string) returns (piece: string, next: nat)
    requires i < |s|
    ensures i < next <= |s| && piece == Head(s[i..], env) && s[next..] == Rest(s[i..])
  {
    if i + 1 < |s| && s[i] == '$' && s[i + 1] == '{' {
      assert s[i..][2..] == s[i + 2..];
      var end := Text.IndexOf(s[i + 2..], '}');
      if i + 2 + end == |s| {
        return s[i..], |s|;
      }
      Slices(s, i, end);
      var key := s[i + 2..i + 2 + end];
      var isName := IsEnvName(key);
      return if isName then env(key) else Ref(key), i + 2 + end + 1;
    }
    return [s[i]], i + 1;
  }

  method ExpandHostEnv(s: string, env: string -> string) returns (out: string)
    ensures out == Expand(s, env)
  {
    out := "";
    var i := 0;
    while i < |s|
      invariant i <= |s|
      invariant Expand(s, env) == out + Expand(s[i..], env)
    {
      var piece, next := WriteAt(s, i, env);
      OneMore(Expand(s, env), out, piece, Expand(s[i..], env), Expand(s[next..], env));
      out, i := out + piece, next;
    }
  }

  // ----- What a text is made of -----

  datatype Piece = Lit(c: char) | Var(key: string)

  function PrintPiece(p: Piece): string { if p.Lit? then [p.c] else Ref(p.key) }

  /** Pieces, then a tail that opens a reference and never closes it. */
  function Print(ps: seq<Piece>, tail: string): string {
    if ps == [] then tail else PrintPiece(ps[0]) + Print(ps[1..], tail)
  }

  function PieceMeaning(p: Piece, env: string -> string): string {
    if p.Lit? then [p.c] else Replaced(p.key, env)
  }

  function Meaning(ps: seq<Piece>, tail: string, env: string -> string): string {
    if ps == [] then tail else PieceMeaning(ps[0], env) + Meaning(ps[1..], tail, env)
  }

  /** The pieces are what their text says: no literal opens a reference, no key holds a brace. */
  predicate Canonical(ps: seq<Piece>, tail: string) {
    if ps == [] then tail == "" || (OpensRef(tail) && '}' !in tail)
    else
      && (ps[0].Lit? ==> !OpensRef(Print(ps, tail)))
      && (ps[0].Var? ==> '}' !in ps[0].key)
      && Canonical(ps[1..], tail)
  }

  lemma RefRead(key: string, rest: string, env: string -> string)
    requires '}' !in key
    ensures Expand(Ref(key) + rest, env) == Replaced(key, env) + Expand(rest, env)
  {
    var s := Ref(key) + rest;
    assert s[2..] == key + ("}" + rest);
    Text.IndexOfAt(s[2..], '}', |key|);
    assert s[2..2 + |key|] == key && s[3 + |key|..] == rest;
  }

  /** Expansion of a printed text is the meaning of its pieces. */
  lemma {:induction false} ExpandsPieces(ps: seq<Piece>, tail: string, env: string -> string)
    requires Canonical(ps, tail)
    ensures Expand(Print(ps, tail), env) == Meaning(ps, tail, env)
    decreases |ps|
  {
    if ps == [] {
      if tail != "" {
        Text.IndexOfAt(tail[2..], '}', |tail| - 2);
      }
    } else {
      var rest := Print(ps[1..], tail);
      ExpandsPieces(ps[1..], tail, env);
      if ps[0].Lit? {
        assert ([ps[0].c] + rest)[1..] == rest;
      } else {
        RefRead(ps[0].key, rest, env);
      }
    }
  }

  lemma RefSplit(s: string, k: nat)
    requires OpensRef(s) && 2 + k < |s| && s[2 + k] == '}'
    ensures s == Ref(s[2..2 + k]) + s[3 + k..]
  {
  }

  /** Every text is made of pieces and a tail. */
  lemma {:induction false} EveryTextIsPieces(s: string) returns (ps: seq<Piece>, tail: string)
    ensures Canonical(ps, tail) && Print(ps, tail) == s
    decreases |s|
  {
    if s == "" {
      ps, tail := [], "";
    } else if OpensRef(s) {
      var k := Text.IndexOf(s[2..], '}');
      if k == |s| - 2 {
        ps, tail := [], s;
        assert forall i :: 2 <= i < |s| ==> s[i] == s[2..][i - 2];
      } else {
        var key := s[2..2 + k];
        var more;
        more, tail := EveryTextIsPieces(s[3 + k..]);
        ps := [Var(key)] + more;
        assert forall i :: 0 <= i < k ==> key[i] == s[2..][i];
        RefSplit(s, k);
        assert ps[1..] == more;
      }
    } else {
      var more;
      more, tail := EveryTextIsPieces(s[1..]);
      ps := [Lit(s[0])] + more;
      assert ps[1..] == more;
      assert s == [s[0]] + s[1..];
    }
  }

  predicate NamesNothing(ps: seq<Piece>) { forall i :: 0 <= i < |ps| && ps[i].Var? ==> !IsEnvNameSpec(ps[i].key) }

  lemma {:induction false} NothingToReplace(ps: seq<Piece>, tail: string, env: string -> string)
    requires NamesNothing(ps)
    ensures Meaning(ps, tail, env) == Print(ps, tail)
    decreases |ps|
  {
    if ps != [] {
      assert forall i :: 0 <= i < |ps| - 1 ==> ps[1..][i] == ps[i + 1];
      NothingToReplace(ps[1..], tail, env);
    }
  }

  function Unset(): string -> string { _ => "" }

  lemma {:induction false} UnsetShrinks(ps: seq<Piece>, tail: string)
    ensures |Meaning(ps, tail, Unset())| <= |Print(ps, tail)|
    ensures !NamesNothing(ps) ==> |Meaning(ps, tail, Unset())| < |Print(ps, tail)|
    decreases |ps|
  {
    if ps != [] {
      assert forall i :: 0 < i < |ps| ==> ps[i] == ps[1..][i - 1];
      UnsetShrinks(ps[1..], tail);
    }
  }

  /** A text passes through untouched, whatever the environment, exactly when no reference in
      it has an environment-style name; unbraced variables and other templates never matter. */
  lemma UntouchedExactly(ps: seq<Piece>, tail: string)
    requires Canonical(ps, tail)
    ensures var s := Print(ps, tail); (forall env :: Expand(s, env) == s) <==> NamesNothing(ps)
  {
    var s := Print(ps, tail);
    ExpandsPieces(ps, tail, Unset());
    UnsetShrinks(ps, tail);
    if NamesNothing(ps) {
      forall env: string -> string ensures Expand(s, env) == s {
        ExpandsPieces(ps, tail, env);
        NothingToReplace(ps, tail, env);
      }
    } else {
      assert Expand(s, Unset()) != s;
    }
  }
}
