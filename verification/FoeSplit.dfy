/**
 Expanding a template over the "Foe" prefix: any of its name placeholders may be printed with the prefix, so
 there is one variant for each choice of prefixed names.
 */
module FoeSplit {
  import opened Common
  import opened Template

  const FOE: Token := Literal("Foe")

  predicate IsName(names: set<string>, t: Token) {
    t.VarToken? && t.placeholder in names
  }

  function NameCount(names: set<string>, tokens: seq<Token>): nat {
    if tokens == [] then 0 else (if IsName(names, tokens[0]) then 1 else 0) + NameCount(names, tokens[1..])
  }

  /** The tokens with the prefix before exactly the chosen names, read left to right. */
  function WithFoe(names: set<string>, tokens: seq<Token>, chosen: seq<bool>): seq<Token>
    requires |chosen| == NameCount(names, tokens)
  {
    if tokens == [] then []
    else if IsName(names, tokens[0]) then
      (if chosen[0] then [FOE] else []) + [tokens[0]] + WithFoe(names, tokens[1..], chosen[1..])
    else [tokens[0]] + WithFoe(names, tokens[1..], chosen)
  }

  /** Takes the prefix away from exactly the chosen names. */
  function WithoutFoe(names: set<string>, tokens: seq<Token>, chosen: seq<bool>): seq<Token> {
    if tokens == [] then []
    else if chosen != [] && chosen[0] && |tokens| > 1 && tokens[0] == FOE && IsName(names, tokens[1]) then
      [tokens[1]] + WithoutFoe(names, tokens[2..], chosen[1..])
    else if chosen != [] && IsName(names, tokens[0]) then [tokens[0]] + WithoutFoe(names, tokens[1..], chosen[1..])
    else [tokens[0]] + WithoutFoe(names, tokens[1..], chosen)
  }

  /** Every choice over `k` names: `itertools.product((False, True), repeat=k)`. */
  function Choices(k: nat): seq<seq<bool>> {
    if k == 0 then [[]] else Prefixed(false, Choices(k - 1)) + Prefixed(true, Choices(k - 1))
  }

  function Pow2(k: nat): nat {
    if k == 0 then 1 else 2 * Pow2(k - 1)
  }

  /** Every choice is listed. */
  lemma {:induction false} ChoicesAreAll(k: nat, c: seq<bool>)
    ensures c in Choices(k) <==> |c| == k
  {
    if k > 0 {
      PrefixedMembers(false, Choices(k - 1), c);
      PrefixedMembers(true, Choices(k - 1), c);
      if c != [] {
        ChoicesAreAll(k - 1, c[1..]);
      }
    }
  }

  /** No choice is listed twice, and there are `2^k` of them. */
  lemma {:induction false} ChoicesAreDistinct(k: nat)
    ensures |Choices(k)| == Pow2(k) && Distinct(Choices(k))
  {
    if k > 0 {
      ChoicesAreDistinct(k - 1);
      var off, on := Prefixed(false, Choices(k - 1)), Prefixed(true, Choices(k - 1));
      PrefixedDistinct(false, Choices(k - 1));
      PrefixedDistinct(true, Choices(k - 1));
      forall c | c in on ensures c !in off {
        PrefixedMembers(true, Choices(k - 1), c);
        PrefixedMembers(false, Choices(k - 1), c);
      }
      DistinctConcat(off, on);
    }
  }

  lemma {:induction false} PrefixesComeOff(names: set<string>, tokens: seq<Token>, chosen: seq<bool>)
    requires |chosen| == NameCount(names, tokens)
    ensures WithoutFoe(names, WithFoe(names, tokens, chosen), chosen) == tokens
    decreases |tokens|
  {
    if tokens != [] {
      var isName := IsName(names, tokens[0]);
      var rest := if isName then chosen[1..] else chosen;
      var variant, tail := WithFoe(names, tokens, chosen), WithFoe(names, tokens[1..], rest);
      PrefixesComeOff(names, tokens[1..], rest);
      if isName && chosen[0] {
        assert variant[2..] == tail;
      } else {
        assert variant[1..] == tail;
        if !isName && chosen != [] && chosen[0] {
          FirstIsNotFreeName(names, tokens[1..], chosen);
        }
      }
    }
  }

  /** A chosen first name never stands unprefixed. */
  lemma FirstIsNotFreeName(names: set<string>, tokens: seq<Token>, chosen: seq<bool>)
    requires |chosen| == NameCount(names, tokens) && chosen != [] && chosen[0]
    ensures var v := WithFoe(names, tokens, chosen); v != [] && !IsName(names, v[0])
  {
  }

  /** Different choices give different variants. */
  lemma {:induction false} VariantsDiffer(names: set<string>, tokens: seq<Token>, a: seq<bool>, b: seq<bool>)
    requires |a| == |b| == NameCount(names, tokens) && a != b
    ensures WithFoe(names, tokens, a) != WithFoe(names, tokens, b)
    decreases |tokens|
  {
    var x, y := WithFoe(names, tokens, a), WithFoe(names, tokens, b);
    if tokens != [] {
      if !IsName(names, tokens[0]) {
        VariantsDiffer(names, tokens[1..], a, b);
        assert x[1..] == WithFoe(names, tokens[1..], a) && y[1..] == WithFoe(names, tokens[1..], b);
      } else if a[0] == b[0] {
        assert a == [a[0]] + a[1..] && b == [b[0]] + b[1..];
        VariantsDiffer(names, tokens[1..], a[1..], b[1..]);
        var n := if a[0] then 2 else 1;
        assert x[n..] == WithFoe(names, tokens[1..], a[1..]) && y[n..] == WithFoe(names, tokens[1..], b[1..]);
      } else {
        assert x[0] != y[0];
      }
    }
  }

  /** The positions of the names, left to right. */
  ghost predicate Lists(names: set<string>, tokens: seq<Token>, positions: seq<nat>) {
    && (forall j | 0 <= j < |positions| :: positions[j] < |tokens| && IsName(names, tokens[positions[j]]))
    && (forall i, j | 0 <= i < j < |positions| :: positions[i] < positions[j])
    && (forall i | 0 <= i < |tokens| && IsName(names, tokens[i]) :: i in positions)
  }

  predicate NoName(names: set<string>, tokens: seq<Token>) {
    forall k | 0 <= k < |tokens| :: !IsName(names, tokens[k])
  }

  /** Before the first name nothing is inserted. */
  lemma {:induction false} NoNameBefore(names: set<string>, plain: seq<Token>, rest: seq<Token>, chosen: seq<bool>)
    requires NoName(names, plain) && NameCount(names, rest) == |chosen|
    ensures NameCount(names, plain + rest) == |chosen|
    ensures WithFoe(names, plain + rest, chosen) == plain + WithFoe(names, rest, chosen)
    decreases |plain|
  {
    if plain == [] {
      assert plain + rest == rest;
    } else {
      assert (plain + rest)[1..] == plain[1..] + rest;
      NoNameBefore(names, plain[1..], rest, chosen);
    }
  }

  /** From one name to the next, only the first of them may gain a prefix. */
  lemma PrefixOneName(names: set<string>, name: Token, plain: seq<Token>, rest: seq<Token>, b: bool, chosen: seq<bool>)
    requires IsName(names, name) && NoName(names, plain) && NameCount(names, rest) == |chosen|
    ensures NameCount(names, [name] + plain + rest) == |chosen| + 1
    ensures WithFoe(names, [name] + plain + rest, [b] + chosen) ==
            (if b then [FOE] else []) + [name] + plain + WithFoe(names, rest, chosen)
  {
    NoNameBefore(names, plain, rest, chosen);
    var all := [name] + plain + rest;
    assert all[1..] == plain + rest && ([b] + chosen)[1..] == chosen;
  }

  lemma {:induction false} NameCountAppend(names: set<string>, tokens: seq<Token>, t: Token)
    ensures NameCount(names, tokens + [t]) == NameCount(names, tokens) + if IsName(names, t) then 1 else 0
  {
    if tokens == [] {
      assert [t][1..] == [] && [] + [t] == [t];
    } else {
      assert (tokens + [t])[1..] == tokens[1..] + [t];
      NameCountAppend(names, tokens[1..], t);
    }
  }

  /** The variables whose placeholder is one of the names. */
  function NamedVars(names: set<string>, tokens: seq<Token>): set<nat> {
    set i: nat | i < |tokens| && tokens[i].VarToken? && tokens[i].placeholder in names
  }

  lemma {:induction false} NamesCounted(names: set<string>, tokens: seq<Token>)
    ensures NameCount(names, tokens) == |NamedVars(names, tokens)|
    decreases |tokens|
  {
    if tokens == [] {
      assert NamedVars(names, tokens) == {};
    } else {
      var init, last := tokens[..|tokens| - 1], tokens[|tokens| - 1];
      assert tokens == init + [last];
      NamesCounted(names, init);
      NameCountAppend(names, init, last);
      assert NamedVars(names, tokens) == NamedVars(names, init) + if IsName(names, last) then {|init|} else {};
    }
  }

  /** The variant built so far: untouched before `p`, with its prefixes from `p` on. */
  ghost predicate BuiltFrom(names: set<string>, tokens: seq<Token>, p: nat, chosen: seq<bool>, variant: seq<Token>) {
    && p <= |tokens| && NameCount(names, tokens[p..]) == |chosen|
    && variant == tokens[..p] + WithFoe(names, tokens[p..], chosen)
  }

  /** The name before those done, and the plain tokens after it, come off the untouched part. */
  lemma OneNameBack(names: set<string>, tokens: seq<Token>, at: nat, p: nat, chosen: seq<bool>, before: seq<Token>)
    requires at < p <= |tokens| && BuiltFrom(names, tokens, p, chosen, before)
    ensures tokens[at..] == [tokens[at]] + tokens[at + 1..p] + tokens[p..]
    ensures before == tokens[..at] + ([tokens[at]] + tokens[at + 1..p] + WithFoe(names, tokens[p..], chosen))
  {
    assert tokens[..p] == tokens[..at] + ([tokens[at]] + tokens[at + 1..p]);
  }

  lemma InsertBetween<T>(pre: seq<T>, x: T, post: seq<T>)
    ensures (pre + post)[..|pre|] + [x] + (pre + post)[|pre|..] == pre + ([x] + post)
  {
  }

  /** One insertion, at the name before those done. */
  method InsertAt(names: set<string>, tokens: seq<Token>, at: nat, ghost p: nat, b: bool, ghost chosen: seq<bool>,
      before: seq<Token>)
    returns (variant: seq<Token>)
    requires at < p <= |tokens| && IsName(names, tokens[at]) && NoName(names, tokens[at + 1..p])
    requires BuiltFrom(names, tokens, p, chosen, before)
    ensures BuiltFrom(names, tokens, at, [b] + chosen, variant)
  {
    PrefixOneName(names, tokens[at], tokens[at + 1..p], tokens[p..], b, chosen);
    OneNameBack(names, tokens, at, p, chosen, before);
    ghost var post := [tokens[at]] + tokens[at + 1..p] + WithFoe(names, tokens[p..], chosen);
    InsertBetween(tokens[..at], FOE, post);
    assert [FOE] + post == [FOE] + [tokens[at]] + tokens[at + 1..p] + WithFoe(names, tokens[p..], chosen);
    assert [] + [tokens[at]] == [tokens[at]];
    variant := if b then before[..at] + [FOE] + before[at..] else before;
  }

  /** The source's insertion, from the last name to the first so that earlier positions stay valid. */
  method InsertFoe(names: set<string>, tokens: seq<Token>, positions: seq<nat>, chosen: seq<bool>)
    returns (variant: seq<Token>)
    requires Lists(names, tokens, positions) && |chosen| == |positions|
    ensures NameCount(names, tokens) == |chosen| && variant == WithFoe(names, tokens, chosen)
  {
    variant := tokens;
    var j := |positions|;
    ghost var p: nat := |tokens|;
    while j > 0
      invariant 0 <= j <= |positions| && p == (if j < |positions| then positions[j] else |tokens|)
      invariant BuiltFrom(names, tokens, p, chosen[j..], variant)
    {
      j := j - 1;
      var at := positions[j];
      ghost var between := tokens[at + 1..p];
      forall k | 0 <= k < |between| ensures !IsName(names, between[k]) {
        assert at + 1 + k !in positions;
      }
      assert chosen[j..] == [chosen[j]] + chosen[j + 1..];
      variant := InsertAt(names, tokens, at, p, chosen[j], chosen[j + 1..], variant);
      p := at;
    }
    assert forall k | 0 <= k < p :: k !in positions;
    assert NoName(names, tokens[..p]);
    assert tokens[..p] + tokens[p..] == tokens && chosen[0..] == chosen;
    NoNameBefore(names, tokens[..p], tokens[p..], chosen);
  }

  method NamePositions(names: set<string>, tokens: seq<Token>) returns (positions: seq<nat>)
    ensures Lists(names, tokens, positions) && |positions| == NameCount(names, tokens)
  {
    positions := [];
    assert tokens[0..] == tokens;
    for i := 0 to |tokens|
      invariant |positions| + NameCount(names, tokens[i..]) == NameCount(names, tokens)
      invariant forall j | 0 <= j < |positions| :: positions[j] < i && IsName(names, tokens[positions[j]])
      invariant forall k, j | 0 <= k < j < |positions| :: positions[k] < positions[j]
      invariant forall k | 0 <= k < i && IsName(names, tokens[k]) :: k in positions
    {
      assert tokens[i..][1..] == tokens[i + 1..];
      if IsName(names, tokens[i]) {
        positions := positions + [i];
      }
    }
  }

  /** One variant for each choice of prefixed names, in the order of the choices. */
  method Split(names: set<string>, tokens: seq<Token>) returns (variants: seq<seq<Token>>)
    ensures |variants| == |Choices(NameCount(names, tokens))| == Pow2(NameCount(names, tokens))
    ensures forall j | 0 <= j < |variants| ::
      var chosen := Choices(NameCount(names, tokens))[j];
      |chosen| == NameCount(names, tokens) && variants[j] == WithFoe(names, tokens, chosen)
    ensures Distinct(variants)
  {
    var positions := NamePositions(names, tokens);
    var choices := Choices(|positions|);
    ChoicesAreDistinct(|positions|);
    forall c ensures c in choices <==> |c| == |positions| { ChoicesAreAll(|positions|, c); }
    variants := [];
    for c := 0 to |choices|
      invariant |variants| == c
      invariant forall j | 0 <= j < c :: choices[j] in choices && variants[j] == WithFoe(names, tokens, choices[j])
    {
      assert choices[c] in choices;
      var variant := InsertFoe(names, tokens, positions, choices[c]);
      variants := variants + [variant];
    }
    forall i, j | 0 <= i < j < |variants| ensures variants[i] != variants[j] {
      VariantsDiffer(names, tokens, choices[i], choices[j]);
    }
  }
}
