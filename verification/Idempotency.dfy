/** Idempotent starts: the hash inputs of platform/workflow/service.go, the key table of
    platform/workflow/run.go, and StartRun as one atomic step over both. */
module Idempotency {
  import opened Wrappers
  import opened Decimals
  import opened FlowDefinitions

  const NUL := 0 as char

  predicate NulFree(s: string) {
    NUL !in s
  }

  predicate AllNulFree(parts: seq<string>) {
    forall i :: 0 <= i < |parts| ==> NulFree(parts[i])
  }

  /** What hashParts feeds to SHA-256: every part followed by a NUL. */
  function Encode(parts: seq<string>): string {
    if parts == [] then "" else parts[0] + [NUL] + Encode(parts[1..])
  }

  // ---------------------------------------------------------------- the encoding of parts

  lemma NoNulBefore(q: string, b: string, k: nat)
    requires NulFree(q)
    ensures k < |q| ==> (q + [NUL] + b)[k] != NUL
    ensures (q + [NUL] + b)[|q|] == NUL
  {
  }

  lemma FirstNulIsTheSplit(p: string, a: string, q: string, b: string)
    requires NulFree(p) && NulFree(q) && p + [NUL] + a == q + [NUL] + b
    ensures p == q && a == b
  {
    var s := p + [NUL] + a;
    NoNulBefore(q, b, |p|);
    NoNulBefore(p, a, |q|);
    assert p == s[..|p|] && q == s[..|q|] && a == s[|p| + 1..] && b == s[|q| + 1..];
  }

  lemma {:induction false} EncodeIsInjective(a: seq<string>, b: seq<string>)
    requires AllNulFree(a) && AllNulFree(b) && Encode(a) == Encode(b)
    ensures a == b
  {
    if a == [] || b == [] {
      assert |Encode(a)| == |Encode(b)|;
    } else {
      FirstNulIsTheSplit(a[0], Encode(a[1..]), b[0], Encode(b[1..]));
      EncodeIsInjective(a[1..], b[1..]);
      assert a == [a[0]] + a[1..] && b == [b[0]] + b[1..];
    }
  }

  lemma {:induction false} EncodeConcat(a: seq<string>, b: seq<string>)
    ensures Encode(a + b) == Encode(a) + Encode(b)
  {
    if a == [] {
      assert a + b == b;
    } else {
      assert (a + b)[1..] == a[1..] + b;
      EncodeConcat(a[1..], b);
    }
  }

  lemma EncodePair(p: string, q: string)
    ensures Encode([p, q]) == p + [NUL] + q + [NUL]
  {
    assert [p, q][1..] == [q] && [q][1..] == [];
    assert Encode([q]) == q + [NUL] + "" == q + [NUL];
    assert p + [NUL] + (q + [NUL]) == p + [NUL] + q + [NUL];
  }

  /** A pair one of whose parts has a NUL can be split elsewhere. */
  lemma Resplit(p: string, q: string) returns (p': string, q': string)
    requires !NulFree(p) || !NulFree(q)
    ensures p' != p && Encode([p', q']) == Encode([p, q])
  {
    EncodePair(p, q);
    if !NulFree(p) {
      var k :| 0 <= k < |p| && p[k] == NUL;
      p', q' := p[..k], p[k + 1..] + [NUL] + q;
      EncodePair(p', q');
      assert p == p[..k] + [NUL] + p[k + 1..];
    } else {
      var k :| 0 <= k < |q| && q[k] == NUL;
      p', q' := p + [NUL] + q[..k], q[k + 1..];
      EncodePair(p', q');
      assert q == q[..k] + [NUL] + q[k + 1..];
    }
  }

  lemma EncodeReplaced(front: seq<string>, a: seq<string>, b: seq<string>, rest: seq<string>)
    requires Encode(a) == Encode(b)
    ensures Encode(front + a + rest) == Encode(front + b + rest)
  {
    EncodeConcat(front + a, rest);
    EncodeConcat(front + b, rest);
    EncodeConcat(front, a);
    EncodeConcat(front, b);
  }

  lemma Ambiguous(parts: seq<string>) returns (other: seq<string>)
    requires |parts| >= 2 && !AllNulFree(parts)
    ensures |other| == |parts| && Encode(other) == Encode(parts) && other != parts
  {
    hide Encode, NulFree;
    var i :| 0 <= i < |parts| && !NulFree(parts[i]);
    var j := if i + 1 < |parts| then i else i - 1;
    var p, q := Resplit(parts[j], parts[j + 1]);
    EncodeReplaced(parts[..j], [p, q], [parts[j], parts[j + 1]], parts[j + 2..]);
    assert parts == parts[..j] + [parts[j], parts[j + 1]] + parts[j + 2..];
    other := parts[..j] + [p, q] + parts[j + 2..];
    assert other[j] == p;
  }

  /** The exact strength of hashParts over two or more parts: no other parts give the same bytes if and only
      if none of them contains a NUL. */
  lemma PartsAreDistinguishedIff(parts: seq<string>)
    requires |parts| >= 2
    ensures (forall other: seq<string> :: |other| == |parts| && Encode(other) == Encode(parts) ==> other == parts)
      <==> AllNulFree(parts)
  {
    if AllNulFree(parts) {
      forall other: seq<string> | |other| == |parts| && Encode(other) == Encode(parts) ensures other == parts {
        EqualCountIsInjective(other, parts);
      }
    } else {
      var other := Ambiguous(parts);
      assert !(|other| == |parts| && Encode(other) == Encode(parts) ==> other == parts);
    }
  }

  function Nuls(s: string): nat {
    if s == "" then 0 else (if s[0] == NUL then 1 else 0) + Nuls(s[1..])
  }

  lemma {:induction false} NulsConcat(s: string, t: string)
    ensures Nuls(s + t) == Nuls(s) + Nuls(t)
  {
    if s == "" {
      assert s + t == t;
    } else {
      assert (s + t)[1..] == s[1..] + t;
      NulsConcat(s[1..], t);
    }
  }

  lemma {:induction false} NulFreeIff(s: string)
    ensures NulFree(s) <==> Nuls(s) == 0
  {
    if s != "" {
      assert s == [s[0]] + s[1..];
      NulFreeIff(s[1..]);
    }
  }

  lemma {:induction false} NulsOfEncode(parts: seq<string>)
    ensures Nuls(Encode(parts)) >= |parts|
    ensures Nuls(Encode(parts)) == |parts| <==> AllNulFree(parts)
  {
    if parts != [] {
      NulsOfEncode(parts[1..]);
      NulsConcat(parts[0] + [NUL], Encode(parts[1..]));
      NulsConcat(parts[0], [NUL]);
      assert [NUL][1..] == "" && Nuls([NUL]) == 1;
      NulFreeIff(parts[0]);
      assert AllNulFree(parts) <==> NulFree(parts[0]) && AllNulFree(parts[1..]) by {
        assert forall i :: 0 < i < |parts| ==> parts[i] == parts[1..][i - 1];
      }
    }
  }

  /** Parts without NULs are told apart from all others of their number, with NULs or without. */
  lemma EqualCountIsInjective(other: seq<string>, parts: seq<string>)
    requires AllNulFree(parts) && |other| == |parts| && Encode(other) == Encode(parts)
    ensures other == parts
  {
    NulsOfEncode(other);
    NulsOfEncode(parts);
    EncodeIsInjective(other, parts);
  }

  // ---------------------------------------------------------------- the encoding of inputs

  /** Strictly before, byte by byte (Go's order on strings). */
  predicate Before(a: string, b: string) {
    b != "" && (a == "" || a[0] < b[0] || (a[0] == b[0] && Before(a[1..], b[1..])))
  }

  predicate InOrder(keys: seq<string>) {
    forall i, j :: 0 <= i < j < |keys| ==> Before(keys[i], keys[j])
  }

  ghost predicate IsKeyOrder(inputs: map<string, string>, keys: seq<string>) {
    InOrder(keys) && forall k :: k in keys <==> k in inputs
  }

  function Flat(inputs: map<string, string>, keys: seq<string>): seq<string>
    requires forall k <- keys :: k in inputs
  {
    if keys == [] then [] else
    Flat(inputs, keys[..|keys| - 1]) + [keys[|keys| - 1], inputs[keys[|keys| - 1]]]
  }

  function InsertKey(keys: seq<string>, k: string): seq<string> {
    if keys == [] then [k]
    else if Before(k, keys[|keys| - 1]) then InsertKey(keys[..|keys| - 1], k) + [keys[|keys| - 1]]
    else keys + [k]
  }

  /** Go's sort.Strings. */
  function SortKeys(keys: seq<string>): seq<string> {
    if keys == [] then [] else InsertKey(SortKeys(keys[..|keys| - 1]), keys[|keys| - 1])
  }

  lemma {:induction false} BeforeIsTotal(a: string, b: string)
    ensures a == b || Before(a, b) || Before(b, a)
    ensures !(Before(a, b) && Before(b, a)) && !Before(a, a)
  {
    if a != "" {
      assert a == [a[0]] + a[1..];
      BeforeIsTotal(a[1..], if b == "" then "" else b[1..]);
      if b != "" {
        assert b == [b[0]] + b[1..];
      }
    }
  }

  lemma {:induction false} BeforeIsTransitive(a: string, b: string, c: string)
    requires Before(a, b) && Before(b, c)
    ensures Before(a, c)
  {
    if a != "" && a[0] == b[0] == c[0] {
      BeforeIsTransitive(a[1..], b[1..], c[1..]);
    }
  }

  lemma {:induction false} InsertKeyOrders(keys: seq<string>, k: string)
    requires InOrder(keys) && k !in keys
    ensures InOrder(InsertKey(keys, k)) && forall x :: x in InsertKey(keys, k) <==> x in keys || x == k
  {
    hide Before;
    if keys != [] {
      var n := |keys| - 1;
      var last := keys[n];
      assert keys == keys[..n] + [last];
      BeforeIsTotal(k, last);
      if Before(k, last) {
        var front := InsertKey(keys[..n], k);
        InsertKeyOrders(keys[..n], k);
        forall i | 0 <= i < |front| ensures Before(front[i], last) {
          assert front[i] in front;
        }
      } else {
        forall i | 0 <= i < n ensures Before(keys[i], k) {
          BeforeIsTransitive(keys[i], last, k);
        }
      }
    }
  }

  lemma {:induction false} SortKeysOrders(keys: seq<string>)
    requires forall i, j :: 0 <= i < j < |keys| ==> keys[i] != keys[j]
    ensures InOrder(SortKeys(keys)) && forall x :: x in SortKeys(keys) <==> x in keys
  {
    if keys != [] {
      var n := |keys| - 1;
      assert keys == keys[..n] + [keys[n]] && keys[n] !in keys[..n];
      SortKeysOrders(keys[..n]);
      InsertKeyOrders(SortKeys(keys[..n]), keys[n]);
    }
  }

  lemma EncodeNothing()
    ensures Encode([]) == ""
  {
  }

  /** The keys, sorted, whatever order the map is walked in. */
  method SortedKeys(inputs: map<string, string>) returns (keys: seq<string>)
    ensures IsKeyOrder(inputs, keys)
  {
    hide Before, InOrder, SortKeys;
    var walked: seq<string> := [];
    var rest := inputs.Keys;
    while rest != {}
      invariant forall k :: k in inputs <==> k in rest || k in walked
      invariant forall k <- walked :: k !in rest
      invariant forall i, j :: 0 <= i < j < |walked| ==> walked[i] != walked[j]
      decreases |rest|
    {
      var k :| k in rest;
      walked := walked + [k];
      rest := rest - {k};
    }
    SortKeysOrders(walked);
    keys := SortKeys(walked);
  }

  lemma EncodeOneMore(parts: seq<string>, p: string, q: string)
    ensures Encode(parts + [p, q]) == Encode(parts) + p + [NUL] + q + [NUL]
  {
    EncodeConcat(parts, [p, q]);
    EncodePair(p, q);
    assert Encode(parts) + p + [NUL] + q + [NUL] == Encode(parts) + (p + [NUL] + q + [NUL]);
  }

  /** What canonicalInputs hashes. */
  method CanonicalInputs(inputs: map<string, string>) returns (bytes: string)
    ensures exists keys: seq<string> :: IsKeyOrder(inputs, keys) && bytes == Encode(Flat(inputs, keys))
  {
    hide InOrder, Encode;
    var keys := SortedKeys(inputs);
    bytes := "";
    EncodeNothing();
    for i := 0 to |keys|
      invariant bytes == Encode(Flat(inputs, keys[..i]))
    {
      assert keys[..i + 1][..i] == keys[..i];
      EncodeOneMore(Flat(inputs, keys[..i]), keys[i], inputs[keys[i]]);
      bytes := bytes + keys[i] + [NUL];
      bytes := bytes + inputs[keys[i]] + [NUL];
    }
    assert keys[..|keys|] == keys;
  }

  lemma {:induction false} LastKeyIsGreatest(keys: seq<string>, other: seq<string>)
    requires InOrder(keys) && InOrder(other) && keys != [] && other != []
    requires forall k :: k in keys <==> k in other
    ensures keys[|keys| - 1] == other[|other| - 1]
  {
    var a, b := keys[|keys| - 1], other[|other| - 1];
    assert a in other && b in keys;
    var i :| 0 <= i < |other| && other[i] == a;
    var j :| 0 <= j < |keys| && keys[j] == b;
    BeforeIsTotal(a, b);
  }

  lemma OrderedKeysAreDistinct(keys: seq<string>)
    requires InOrder(keys) && keys != []
    ensures keys[|keys| - 1] !in keys[..|keys| - 1]
  {
    BeforeIsTotal(keys[|keys| - 1], keys[|keys| - 1]);
  }

  lemma EmptyTogether(keys: seq<string>, other: seq<string>)
    requires forall k :: k in keys <==> k in other
    ensures keys == [] <==> other == []
  {
    if keys != [] {
      assert keys[0] in other;
    }
    if other != [] {
      assert other[0] in keys;
    }
  }

  /** The order of the map does not matter: there is one key order. */
  lemma {:induction false} KeyOrderIsUnique(keys: seq<string>, other: seq<string>)
    requires InOrder(keys) && InOrder(other) && forall k :: k in keys <==> k in other
    ensures keys == other
  {
    hide Before;
    EmptyTogether(keys, other);
    if keys != [] {
      var n, m := |keys| - 1, |other| - 1;
      LastKeyIsGreatest(keys, other);
      OrderedKeysAreDistinct(keys);
      OrderedKeysAreDistinct(other);
      assert keys == keys[..n] + [keys[n]] && other == other[..m] + [other[m]];
      forall k ensures k in keys[..n] <==> k in other[..m] {
        assert k in keys <==> k in keys[..n] || k == keys[n];
        assert k in other <==> k in other[..m] || k == other[m];
      }
      KeyOrderIsUnique(keys[..n], other[..m]);
    }
  }

  predicate NulFreeInputs(inputs: map<string, string>) {
    forall k <- inputs :: NulFree(k) && NulFree(inputs[k])
  }

  lemma {:induction false} FlatIsNulFree(inputs: map<string, string>, keys: seq<string>)
    requires NulFreeInputs(inputs) && forall k <- keys :: k in inputs
    ensures AllNulFree(Flat(inputs, keys)) && |Flat(inputs, keys)| == 2 * |keys|
  {
    hide NulFree;
    if keys != [] {
      FlatIsNulFree(inputs, keys[..|keys| - 1]);
      assert keys[|keys| - 1] in keys;
    }
  }

  lemma {:induction false} FlatIsInjective(a: map<string, string>, aKeys: seq<string>, b: map<string, string>,
                                           bKeys: seq<string>)
    requires (forall k <- aKeys :: k in a) && (forall k <- bKeys :: k in b)
    requires Flat(a, aKeys) == Flat(b, bKeys)
    ensures aKeys == bKeys && forall k <- aKeys :: a[k] == b[k]
  {
    FlatLength(a, aKeys);
    FlatLength(b, bKeys);
    if aKeys != [] {
      var n := |aKeys| - 1;
      var x, y := Flat(a, aKeys), Flat(b, bKeys);
      assert x[|x| - 2] == aKeys[n] && x[|x| - 1] == a[aKeys[n]];
      assert y[|y| - 2] == bKeys[n] && y[|y| - 1] == b[bKeys[n]];
      assert x[..|x| - 2] == Flat(a, aKeys[..n]) && y[..|y| - 2] == Flat(b, bKeys[..n]);
      FlatIsInjective(a, aKeys[..n], b, bKeys[..n]);
      assert aKeys == aKeys[..n] + [aKeys[n]] && bKeys == bKeys[..n] + [bKeys[n]];
    }
  }

  lemma {:induction false} FlatLength(inputs: map<string, string>, keys: seq<string>)
    requires forall k <- keys :: k in inputs
    ensures |Flat(inputs, keys)| == 2 * |keys|
  {
    if keys != [] {
      FlatLength(inputs, keys[..|keys| - 1]);
    }
  }

  /** Inputs without NULs are told apart. */
  lemma InputsAreDistinguished(a: map<string, string>, aKeys: seq<string>, b: map<string, string>, bKeys: seq<string>)
    requires IsKeyOrder(a, aKeys) && IsKeyOrder(b, bKeys) && NulFreeInputs(a) && NulFreeInputs(b)
    ensures Encode(Flat(a, aKeys)) == Encode(Flat(b, bKeys)) <==> a == b
  {
    hide InOrder, NulFree;
    if a == b {
      KeyOrderIsUnique(aKeys, bKeys);
    }
    if Encode(Flat(a, aKeys)) == Encode(Flat(b, bKeys)) {
      FlatIsNulFree(a, aKeys);
      FlatIsNulFree(b, bKeys);
      EncodeIsInjective(Flat(a, aKeys), Flat(b, bKeys));
      FlatIsInjective(a, aKeys, b, bKeys);
      assert a.Keys == b.Keys;
    }
  }

  /** Inputs without NULs have the bytes of no larger inputs, and of no others of their size. */
  lemma InputsOfOneSize(a: map<string, string>, aKeys: seq<string>, b: map<string, string>, bKeys: seq<string>)
    requires IsKeyOrder(a, aKeys) && IsKeyOrder(b, bKeys) && NulFreeInputs(a)
    ensures Encode(Flat(a, aKeys)) == Encode(Flat(b, bKeys)) ==> |b| <= |a|
    ensures |a| == |b| ==> (Encode(Flat(a, aKeys)) == Encode(Flat(b, bKeys)) <==> a == b)
  {
    hide InOrder, Encode, NulFree, NulFreeInputs, Flat;
    KeysCount(a, aKeys);
    KeysCount(b, bKeys);
    FlatIsNulFree(a, aKeys);
    FlatLength(b, bKeys);
    NulsOfEncode(Flat(a, aKeys));
    NulsOfEncode(Flat(b, bKeys));
    if a == b {
      KeyOrderIsUnique(aKeys, bKeys);
    }
    if |a| == |b| && Encode(Flat(a, aKeys)) == Encode(Flat(b, bKeys)) {
      EqualCountIsInjective(Flat(b, bKeys), Flat(a, aKeys));
      FlatIsInjective(b, bKeys, a, aKeys);
      assert a.Keys == b.Keys;
    }
  }

  /** With NULs they need not be: one value can pass for another input, although every key is clean and both
      inputs are accepted by a definition that declares `c` and does not require it. */
  lemma NulsConfuseInputs()
    ensures var a, b := map["a" := "b" + [NUL] + "c" + [NUL] + "d"], map["a" := "b", "c" := "d"];
      && a != b && IsKeyOrder(a, ["a"]) && IsKeyOrder(b, ["a", "c"])
      && Encode(Flat(a, ["a"])) == Encode(Flat(b, ["a", "c"]))
      && forall d: Definition | d.inputsSchema == Some(REQUIRES_ONLY_A) :: InputsValid(d, a) && InputsValid(d, b)
  {
    hide Before, Encode;
    var a, b := map["a" := "b" + [NUL] + "c" + [NUL] + "d"], map["a" := "b", "c" := "d"];
    assert Before("a", "c") by { AIsBeforeC(); }
    assert ["a"][..0] == [] && ["a", "c"][..1] == ["a"];
    assert Flat(b, ["a"]) == ["a", "b"] && Flat(b, ["a", "c"]) == ["a", "b"] + ["c", "d"];
    FlatOne(a, "a");
    EncodePair("a", a["a"]);
    EncodePair("a", "b");
    EncodeOneMore(["a", "b"], "c", "d");
    Regroup("a" + [NUL], "b", "c", "d");
    assert "c" !in a && "c" in b;
  }

  const REQUIRES_ONLY_A :=
    InputsSchema("object", ["a"], map["a" := InputProp("string", 0), "c" := InputProp("string", 0)])

  lemma AIsBeforeC()
    ensures Before("a", "c")
  {
  }

  /** No other inputs have the bytes of these. */
  ghost predicate Unmistakable(a: map<string, string>, aKeys: seq<string>)
    requires IsKeyOrder(a, aKeys)
  {
    forall b: map<string, string>, bKeys :: IsKeyOrder(b, bKeys) ==>
      (Encode(Flat(b, bKeys)) == Encode(Flat(a, aKeys)) ==> b == a)
  }

  /** The exact strength of canonicalInputs: inputs cannot be mistaken for any others if and only if they
      are at most one entry, free of NULs.  Two entries can always pass for one whose value holds the rest. */
  lemma InputsAreUnmistakableIff(a: map<string, string>, aKeys: seq<string>)
    requires IsKeyOrder(a, aKeys)
    ensures Unmistakable(a, aKeys) <==> |a| <= 1 && NulFreeInputs(a)
  {
    hide InOrder, Encode, NulFree, Flat;
    KeysCount(a, aKeys);
    if |a| >= 2 {
      var b, bKeys := Merged(a, aKeys);
      assert !Unmistakable(a, aKeys);
    } else if !NulFreeInputs(a) {
      var b, bKeys := Shifted(a, aKeys);
      assert !Unmistakable(a, aKeys);
    } else {
      forall b: map<string, string>, bKeys | IsKeyOrder(b, bKeys) && Encode(Flat(b, bKeys)) == Encode(Flat(a, aKeys))
        ensures b == a
      {
        ShortInputsAreClear(a, aKeys, b, bKeys);
      }
    }
  }

  lemma {:induction false} KeysCount(a: map<string, string>, keys: seq<string>)
    requires IsKeyOrder(a, keys)
    ensures |keys| == |a|
  {
    hide InOrder, Before;
    if keys == [] {
      assert a.Keys == {};
    } else {
      var n := |keys| - 1;
      WithoutLastKey(a, keys);
      KeysCount(a - {keys[n]}, keys[..n]);
      OneLess(a, keys[n]);
    }
  }

  lemma WithoutLastKey(a: map<string, string>, keys: seq<string>)
    requires IsKeyOrder(a, keys) && keys != []
    ensures var n := |keys| - 1; keys[n] in a && IsKeyOrder(a - {keys[n]}, keys[..n])
  {
    hide Before;
    var n := |keys| - 1;
    OrderedKeysAreDistinct(keys);
    assert keys == keys[..n] + [keys[n]];
  }

  lemma OneLess(a: map<string, string>, k: string)
    requires k in a
    ensures |a| == |a - {k}| + 1
  {
    assert a.Keys == (a - {k}).Keys + {k};
    assert |a| == |a.Keys| && |a - {k}| == |(a - {k}).Keys|;
  }

  /** Two last entries passing for one. */
  lemma Merged(a: map<string, string>, aKeys: seq<string>) returns (b: map<string, string>, bKeys: seq<string>)
    requires IsKeyOrder(a, aKeys) && |aKeys| >= 2
    ensures IsKeyOrder(b, bKeys) && Encode(Flat(b, bKeys)) == Encode(Flat(a, aKeys)) && b != a
  {
    var n := |aKeys| - 2;
    var k, l := aKeys[n], aKeys[n + 1];
    var front := aKeys[..n];
    assert aKeys[..n + 1] == front + [k] && aKeys == front + [k] + [l];
    OrderedKeysAreDistinct(aKeys);
    OrderedKeysAreDistinct(aKeys[..n + 1]);
    bKeys := front + [k];
    b := (a - {l})[k := a[k] + [NUL] + l + [NUL] + a[l]];
    assert l in a && l !in b;
    hide Encode, Before;
    SameFlat(a, b, front);
    assert bKeys[..n] == front && aKeys[..n + 1][..n] == front;
    assert Flat(b, bKeys) == Flat(a, front) + [k, b[k]];
    assert Flat(a, aKeys[..n + 1]) == Flat(a, front) + [k, a[k]];
    assert Flat(a, aKeys) == Flat(a, aKeys[..n + 1]) + [l, a[l]];
    EncodeOneMore(Flat(a, front), k, b[k]);
    EncodeOneMore(Flat(a, front), k, a[k]);
    EncodeOneMore(Flat(a, aKeys[..n + 1]), l, a[l]);
    Regroup(Encode(Flat(a, front)) + k + [NUL], a[k], l, a[l]);
  }

  lemma Regroup(s: string, v: string, l: string, w: string)
    ensures s + v + [NUL] + l + [NUL] + w + [NUL] == s + (v + [NUL] + l + [NUL] + w) + [NUL]
  {
  }

  lemma {:induction false} SameFlat(a: map<string, string>, b: map<string, string>, keys: seq<string>)
    requires forall k <- keys :: k in a && k in b && a[k] == b[k]
    ensures Flat(a, keys) == Flat(b, keys)
  {
    if keys != [] {
      SameFlat(a, b, keys[..|keys| - 1]);
      assert keys[|keys| - 1] in keys;
    }
  }

  /** One entry with a NUL, split elsewhere. */
  lemma Shifted(a: map<string, string>, aKeys: seq<string>) returns (b: map<string, string>, bKeys: seq<string>)
    requires IsKeyOrder(a, aKeys) && |aKeys| <= 1 && !NulFreeInputs(a)
    ensures IsKeyOrder(b, bKeys) && Encode(Flat(b, bKeys)) == Encode(Flat(a, aKeys)) && b != a
  {
    var k :| k in a && !(NulFree(k) && NulFree(a[k]));
    assert k in aKeys;
    assert aKeys == [k];
    var p, q := Resplit(k, a[k]);
    b, bKeys := map[p := q], [p];
    FlatOne(a, k);
    FlatOne(b, p);
    assert p !in a;
  }

  lemma FlatOne(a: map<string, string>, k: string)
    requires k in a
    ensures Flat(a, [k]) == [k, a[k]]
  {
    assert [k][..0] == [];
  }

  lemma ShortInputsAreClear(a: map<string, string>, aKeys: seq<string>, b: map<string, string>, bKeys: seq<string>)
    requires IsKeyOrder(a, aKeys) && IsKeyOrder(b, bKeys) && |aKeys| <= 1 && NulFreeInputs(a)
    requires Encode(Flat(b, bKeys)) == Encode(Flat(a, aKeys))
    ensures b == a
  {
    FlatIsNulFree(a, aKeys);
    FlatLength(b, bKeys);
    NulsOfEncode(Flat(a, aKeys));
    NulsOfEncode(Flat(b, bKeys));
    assert |bKeys| <= |aKeys|;
    if bKeys == [] {
      assert Flat(b, bKeys) == [] && Encode(Flat(a, aKeys)) == "";
      assert Flat(a, aKeys) == [];
    }
    assert |Flat(b, bKeys)| == |Flat(a, aKeys)|;
    EqualCountIsInjective(Flat(b, bKeys), Flat(a, aKeys));
    FlatIsInjective(b, bKeys, a, aKeys);
    assert a.Keys == b.Keys;
  }

  // ---------------------------------------------------------------- the inputs that a definition accepts

  /** No two accepted inputs, the first without NULs, have the same bytes. */
  ghost predicate TellsApart(d: Definition) {
    forall a: map<string, string>, aKeys, b: map<string, string>, bKeys ::
      IsKeyOrder(a, aKeys) && IsKeyOrder(b, bKeys) && InputsValid(d, a) && InputsValid(d, b) && NulFreeInputs(a) ==>
        (Encode(Flat(a, aKeys)) == Encode(Flat(b, bKeys)) ==> a == b)
  }

  predicate Required(d: Definition, name: string) {
    d.inputsSchema.Some? && name in d.inputsSchema.value.required
  }

  /** Every declared input is required, except perhaps the one whose name comes first. */
  ghost predicate OnlyTheFirstIsOptional(d: Definition) {
    forall name <- InputNames(d) :: !Required(d, name) ==> forall k <- InputNames(d) :: !Before(k, name)
  }

  /** Every input may hold a name and two more bytes. */
  ghost predicate Roomy(d: Definition) {
    d.inputsSchema.Some?
    && forall k <- InputNames(d), name <- InputNames(d) :: |name| + 2 <= MaxLength(d.inputsSchema.value.properties[k])
  }

  /** Required inputs are declared, under names without NULs. */
  ghost predicate Declared(d: Definition) {
    && d.inputsSchema.Some? && Elements(d.inputsSchema.value.required) <= InputNames(d)
    && forall name <- InputNames(d) :: NulFree(name)
  }

  lemma MissingKey(a: map<string, string>, b: map<string, string>) returns (l: string)
    requires |b| < |a|
    ensures l in a && l !in b
  {
    assert |a| == |a.Keys| && |b| == |b.Keys|;
    if a.Keys <= b.Keys {
      SubsetCount(a.Keys, b.Keys);
    }
    l :| l in a.Keys && l !in b.Keys;
  }

  lemma FirstKeyFirst(keys: seq<string>, l: string)
    requires InOrder(keys) && l in keys && forall k <- keys :: !Before(k, l)
    ensures keys[0] == l
  {
    hide Before;
    var i :| 0 <= i < |keys| && keys[i] == l;
    assert keys[0] in keys;
  }

  lemma {:induction false} FlatConcat(a: map<string, string>, x: seq<string>, y: seq<string>)
    requires forall k <- x + y :: k in a
    ensures (forall k <- x :: k in a) && (forall k <- y :: k in a) && Flat(a, x + y) == Flat(a, x) + Flat(a, y)
  {
    forall k | k in x || k in y ensures k in a {
      assert k in x + y;
    }
    if y == [] {
      assert x + y == x;
    } else {
      var n := |y| - 1;
      assert (x + y)[..|x + y| - 1] == x + y[..n];
      FlatConcat(a, x, y[..n]);
    }
  }

  lemma FirstKeyOfBytes(a: map<string, string>, keys: seq<string>)
    requires keys != [] && forall k <- keys :: k in a
    ensures Flat(a, keys) != [] && Encode(Flat(a, keys)) == keys[0] + [NUL] + Encode(Flat(a, keys)[1..])
  {
    assert keys == [keys[0]] + keys[1..];
    FlatConcat(a, [keys[0]], keys[1..]);
    FlatOne(a, keys[0]);
  }

  lemma FirstNameDecides(d: Definition, a: map<string, string>, aKeys: seq<string>, b: map<string, string>,
                         bKeys: seq<string>)
    requires OnlyTheFirstIsOptional(d) && InputsValid(d, a) && InputsValid(d, b) && NulFreeInputs(a)
    requires IsKeyOrder(a, aKeys) && IsKeyOrder(b, bKeys)
    requires Encode(Flat(a, aKeys)) == Encode(Flat(b, bKeys))
    ensures a == b
  {
    hide Before, Encode, Flat, NulFree, InOrder;
    InputsOfOneSize(a, aKeys, b, bKeys);
    if |a| != |b| {
      var l := MissingKey(a, b);
      assert forall k <- InputNames(d) :: !Before(k, l);
      assert forall k <- aKeys :: k in InputNames(d);
      FirstKeyFirst(aKeys, l);
      FirstKeyOfBytes(a, aKeys);
      EncodeNothing();
      FlatLength(b, bKeys);
      if bKeys != [] {
        FirstKeyOfBytes(b, bKeys);
        var k := bKeys[0];
        assert k in bKeys && k in b && k in InputNames(d);
        if !Required(d, k) {
          BeforeIsTotal(k, l);
        }
        assert k in a;
        FirstNulIsTheSplit(l, Encode(Flat(a, aKeys)[1..]), k, Encode(Flat(b, bKeys)[1..]));
      }
    }
  }

  lemma {:induction false} KeyOrderExists(inputs: map<string, string>, names: set<string>) returns (keys: seq<string>)
    requires names == inputs.Keys
    ensures IsKeyOrder(inputs, keys)
  {
    hide Before;
    if names == {} {
      keys := [];
    } else {
      var k :| k in names;
      var rest := KeyOrderExists(inputs - {k}, names - {k});
      InsertKeyOrders(rest, k);
      keys := InsertKey(rest, k);
    }
  }

  lemma WithoutOneKey(a: map<string, string>, aKeys: seq<string>, i: int, b: map<string, string>, bKeys: seq<string>)
    requires IsKeyOrder(a, aKeys) && 0 <= i < |aKeys| && bKeys == aKeys[..i] + aKeys[i + 1..]
    requires b.Keys == a.Keys - {aKeys[i]}
    ensures IsKeyOrder(b, bKeys)
  {
    hide Before;
    forall k | k in bKeys ensures k in b {
      var j :| 0 <= j < |bKeys| && bKeys[j] == k;
      var j' := if j < i then j else j + 1;
      assert aKeys[j'] == k && k in aKeys;
      BeforeIsTotal(k, aKeys[i]);
    }
    forall k | k in b ensures k in bKeys {
      assert k in aKeys;
      var j :| 0 <= j < |aKeys| && aKeys[j] == k;
      assert bKeys[if j < i then j else j - 1] == k;
    }
  }

  lemma SameBytes(a: map<string, string>, b: map<string, string>, front: seq<string>, k: string, l: string,
                  rest: seq<string>)
    requires (forall x <- front + rest :: x in a && x in b && a[x] == b[x]) && k in a && l in a && k in b
    requires a[k] == "" && a[l] == "" && b[k] == [NUL] + l + [NUL]
    ensures (forall x <- front + [k, l] + rest :: x in a) && (forall x <- front + [k] + rest :: x in b)
    ensures Encode(Flat(a, front + [k, l] + rest)) == Encode(Flat(b, front + [k] + rest))
  {
    hide Encode, Flat;
    forall x | x in front || x in rest ensures x in a && x in b && a[x] == b[x] {
      assert x in front + rest;
    }
    FlatConcat(a, front + [k, l], rest);
    FlatConcat(a, front, [k, l]);
    FlatConcat(b, front + [k], rest);
    FlatConcat(b, front, [k]);
    SameFlat(a, b, front);
    SameFlat(a, b, rest);
    assert [k, l] == [k] + [l];
    FlatConcat(a, [k], [l]);
    FlatOne(a, k);
    FlatOne(a, l);
    FlatOne(b, k);
    EncodePair(k, "");
    EncodeOneMore([k, ""], l, "");
    EncodePair(k, b[k]);
    assert Encode(Flat(a, [k, l])) == Encode(Flat(b, [k]));
    EncodeReplaced(Flat(a, front), Flat(a, [k, l]), Flat(b, [k]), Flat(a, rest));
  }

  /** An optional input that is not the first: the inputs that hold it, all empty, have the bytes of the inputs
      without it in which the one before it holds its name. */
  lemma OptionalNamesConfuse(d: Definition, l: string, before: string)
    requires Roomy(d) && Declared(d)
    requires l in InputNames(d) && !Required(d, l) && before in InputNames(d) && Before(before, l)
    ensures !TellsApart(d)
  {
    hide *;
    var a, aKeys := AllEmpty(d);
    var i := PlaceOf(a, aKeys, l, before);
    var k, rest := aKeys[i - 1], aKeys[i + 1..];
    var b := (a - {l})[k := [NUL] + l + [NUL]];
    var bKeys := aKeys[..i - 1] + [k] + rest;
    Neighbours(a, aKeys, i, b, bKeys);
    SameBytes(a, b, aKeys[..i - 1], k, l, rest);
    BothAreAccepted(d, a, b, k, l);
    Confused(d, a, aKeys, b, bKeys);
  }

  lemma AllEmpty(d: Definition) returns (a: map<string, string>, aKeys: seq<string>)
    ensures a.Keys == InputNames(d) && (forall name <- a :: a[name] == "") && IsKeyOrder(a, aKeys)
    ensures Declared(d) ==> NulFreeInputs(a)
  {
    a := map name | name in InputNames(d) :: "";
    aKeys := KeyOrderExists(a, InputNames(d));
  }

  lemma PlaceOf(a: map<string, string>, aKeys: seq<string>, l: string, before: string) returns (i: int)
    requires IsKeyOrder(a, aKeys) && l in a && before in a && Before(before, l)
    ensures 0 < i < |aKeys| && aKeys[i] == l && aKeys[i - 1] in a && aKeys[i - 1] != l
  {
    hide Before;
    assert l in aKeys && before in aKeys;
    i :| 0 <= i < |aKeys| && aKeys[i] == l;
    BeforeIsTotal(before, l);
    assert i > 0;
    assert aKeys[i - 1] in aKeys;
    BeforeIsTotal(aKeys[i - 1], l);
  }

  lemma Neighbours(a: map<string, string>, aKeys: seq<string>, i: int, b: map<string, string>, bKeys: seq<string>)
    requires IsKeyOrder(a, aKeys) && 0 < i < |aKeys| && aKeys[i - 1] in a && aKeys[i - 1] != aKeys[i]
    requires b.Keys == a.Keys - {aKeys[i]} && forall x <- b :: x == aKeys[i - 1] || b[x] == a[x]
    requires bKeys == aKeys[..i - 1] + [aKeys[i - 1]] + aKeys[i + 1..]
    ensures IsKeyOrder(b, bKeys) && aKeys == aKeys[..i - 1] + [aKeys[i - 1], aKeys[i]] + aKeys[i + 1..]
    ensures forall x <- aKeys[..i - 1] + aKeys[i + 1..] :: x in a && x in b && a[x] == b[x]
  {
    hide InOrder;
    assert aKeys[..i] == aKeys[..i - 1] + [aKeys[i - 1]];
    WithoutOneKey(a, aKeys, i, b, bKeys);
    forall x | x in aKeys[..i - 1] + aKeys[i + 1..] ensures x in a && x in b && a[x] == b[x] {
      Apart(aKeys, i, x);
    }
  }

  lemma Confused(d: Definition, a: map<string, string>, aKeys: seq<string>, b: map<string, string>, bKeys: seq<string>)
    requires IsKeyOrder(a, aKeys) && IsKeyOrder(b, bKeys) && InputsValid(d, a) && InputsValid(d, b) && NulFreeInputs(a)
    requires Encode(Flat(a, aKeys)) == Encode(Flat(b, bKeys)) && a != b
    ensures !TellsApart(d)
  {
    hide NulFreeInputs, InputsValid, Encode, Flat, InOrder;
  }

  lemma Apart(keys: seq<string>, i: int, x: string)
    requires InOrder(keys) && 0 < i < |keys| && x in keys[..i - 1] + keys[i + 1..]
    ensures x in keys && x != keys[i - 1] && x != keys[i]
  {
    hide Before;
    BeforeIsTotal(x, x);
  }

  lemma BothAreAccepted(d: Definition, a: map<string, string>, b: map<string, string>, k: string, l: string)
    requires Roomy(d) && Declared(d)
    requires l in InputNames(d) && !Required(d, l) && k in InputNames(d) && k != l
    requires a.Keys == InputNames(d) && forall name <- a :: a[name] == ""
    requires b == (a - {l})[k := [NUL] + l + [NUL]]
    ensures InputsValid(d, a) && InputsValid(d, b)
  {
  }

  /** Which definitions have inputs that are told apart: those in which at most the first name is optional.
      Whatever the limits, that is enough; it is needed as soon as they leave room for a name. */
  lemma AcceptedInputsAreToldApartIff(d: Definition)
    ensures OnlyTheFirstIsOptional(d) ==> TellsApart(d)
    ensures Roomy(d) && Declared(d) ==> (TellsApart(d) <==> OnlyTheFirstIsOptional(d))
  {
    hide NulFree, Before, InOrder, Encode, Flat;
    if OnlyTheFirstIsOptional(d) {
      forall a: map<string, string>, aKeys, b: map<string, string>, bKeys
        | IsKeyOrder(a, aKeys) && IsKeyOrder(b, bKeys) && InputsValid(d, a) && InputsValid(d, b)
          && NulFreeInputs(a) && Encode(Flat(a, aKeys)) == Encode(Flat(b, bKeys))
        ensures a == b
      {
        FirstNameDecides(d, a, aKeys, b, bKeys);
      }
    } else if Roomy(d) && Declared(d) {
      var l :| l in InputNames(d) && !Required(d, l) && exists k :: k in InputNames(d) && Before(k, l);
      var before :| before in InputNames(d) && Before(before, l);
      OptionalNamesConfuse(d, l, before);
    }
  }

  // ---------------------------------------------------------------- payloads

  /** What StartRun hashes: the key scope, and the payload with the hashed inputs inside. */
  function KeyBytes(keyID: string, idemKey: string): string {
    Encode([keyID, idemKey])
  }

  function PayloadBytes(alias: string, version: nat, inputBytes: string, mode: string, hash: string -> string): string {
    Encode([alias, Decimal(version), hash(inputBytes), mode])
  }

  /** The bytes that are hashed: every part closed by a zero byte. */
  lemma HashedBytes(keyID: string, idemKey: string, alias: string, version: nat, inputBytes: string, mode: string,
                    hash: string -> string)
    ensures KeyBytes(keyID, idemKey) == keyID + [0 as char] + idemKey + [0 as char]
    ensures PayloadBytes(alias, version, inputBytes, mode, hash)
      == alias + [0 as char] + Decimal(version) + [0 as char] + (hash(inputBytes) + [0 as char] + mode + [0 as char])
  {
    EncodePair(keyID, idemKey);
    EncodePair(alias, Decimal(version));
    EncodePair(hash(inputBytes), mode);
    EncodeConcat([alias, Decimal(version)], [hash(inputBytes), mode]);
    assert [alias, Decimal(version), hash(inputBytes), mode]
      == [alias, Decimal(version)] + [hash(inputBytes), mode];
  }

  /** Two starts share an idempotency entry exactly if virtual key and idempotency key agree. */
  lemma KeysAreDistinguished(keyID1: string, idemKey1: string, keyID2: string, idemKey2: string, hash: string -> string)
    requires NulFree(keyID1) && NulFree(idemKey1) && forall a, b :: hash(a) == hash(b) ==> a == b
    ensures hash(KeyBytes(keyID1, idemKey1)) == hash(KeyBytes(keyID2, idemKey2))
      <==> keyID1 == keyID2 && idemKey1 == idemKey2
  {
    hide NulFree, Encode;
    if Encode([keyID2, idemKey2]) == Encode([keyID1, idemKey1]) {
      EqualCountIsInjective([keyID2, idemKey2], [keyID1, idemKey1]);
      assert [keyID2, idemKey2][0] == [keyID1, idemKey1][0] && [keyID2, idemKey2][1] == [keyID1, idemKey1][1];
    }
  }

  lemma {:induction false} DecimalIsNulFree(n: nat)
    ensures NulFree(Decimal(n))
  {
    if n >= 10 {
      DecimalIsNulFree(n / 10);
    }
  }

  /** Two starts have the same payload hash exactly if alias, version, response mode and the bytes of the inputs
      agree, for an injective hash whose digests have no NUL.  The bytes of inputs without NULs agree with those
      of other inputs of their size exactly if the inputs do. */
  lemma PayloadsAreDistinguished(
    alias1: string, version1: nat, inputs1: map<string, string>, keys1: seq<string>, mode1: string,
    alias2: string, version2: nat, inputs2: map<string, string>, keys2: seq<string>, mode2: string,
    hash: string -> string)
    requires IsKeyOrder(inputs1, keys1) && IsKeyOrder(inputs2, keys2)
    requires NulFree(alias1) && NulFree(mode1)
    requires (forall a, b :: hash(a) == hash(b) ==> a == b) && forall a :: NulFree(hash(a))
    ensures hash(PayloadBytes(alias1, version1, Encode(Flat(inputs1, keys1)), mode1, hash))
         == hash(PayloadBytes(alias2, version2, Encode(Flat(inputs2, keys2)), mode2, hash))
      <==> alias1 == alias2 && version1 == version2 && mode1 == mode2
           && Encode(Flat(inputs1, keys1)) == Encode(Flat(inputs2, keys2))
    ensures NulFreeInputs(inputs1) && |inputs1| == |inputs2| ==>
      (Encode(Flat(inputs1, keys1)) == Encode(Flat(inputs2, keys2)) <==> inputs1 == inputs2)
  {
    hide NulFree, Decimal, Flat, Encode, InOrder, NulFreeInputs;
    var bytes1, bytes2 := Encode(Flat(inputs1, keys1)), Encode(Flat(inputs2, keys2));
    if NulFreeInputs(inputs1) {
      InputsOfOneSize(inputs1, keys1, inputs2, keys2);
    }
    DecimalIsNulFree(version1);
    var parts1 := [alias1, Decimal(version1), hash(bytes1), mode1];
    var parts2 := [alias2, Decimal(version2), hash(bytes2), mode2];
    if Encode(parts1) == Encode(parts2) {
      EqualCountIsInjective(parts2, parts1);
      assert parts1[0] == parts2[0] && parts1[1] == parts2[1] && parts1[2] == parts2[2] && parts1[3] == parts2[3];
      DecimalIsInjective(version1, version2);
    }
  }
}
