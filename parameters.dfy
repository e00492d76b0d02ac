/**
  The gateway's parameter strings. The provider builds them by concatenation;
  the model reads each one as the serialization of an ordered list of
  `key=value` pairs joined by `&`, and proves that the list can be read back
  from the string when no key or value contains a separator.
 */
module Parameters {
  import Text

  datatype Param = Param(key: string, value: string)

  function ParamText(p: Param): string
  {
    p.key + "=" + p.value
  }

  /** `k1=v1&k2=v2&...`: the list with no leading `&`. */
  function Serialize(ps: seq<Param>): string
  {
    if ps == [] then "" else ParamText(ps[0]) + Prefixed(ps[1..])
  }

  /** `&k1=v1&k2=v2...`: every pair preceded by `&`, the form appended after a fragment. */
  function Prefixed(ps: seq<Param>): string
  {
    if ps == [] then "" else "&" + ParamText(ps[0]) + Prefixed(ps[1..])
  }

  function Keys(ps: seq<Param>): (ks: seq<string>)
    ensures |ks| == |ps| && forall i :: 0 <= i < |ps| ==> ks[i] == ps[i].key
  {
    seq(|ps|, i requires 0 <= i < |ps| => ps[i].key)
  }

  /** How many pairs carry the key `k`. */
  function Count(ps: seq<Param>, k: string): nat
  {
    if ps == [] then 0 else (if ps[0].key == k then 1 else 0) + Count(ps[1..], k)
  }

  lemma {:induction false} CountConcat(a: seq<Param>, b: seq<Param>, k: string)
    ensures Count(a + b, k) == Count(a, k) + Count(b, k)
  {
    if a != [] {
      assert (a + b)[1..] == a[1..] + b;
      CountConcat(a[1..], b, k);
    } else {
      assert a + b == b;
    }
  }

  lemma {:induction false} CountAbsent(ps: seq<Param>, k: string)
    requires k !in Keys(ps)
    ensures Count(ps, k) == 0
  {
    if ps != [] {
      assert Keys(ps[1..]) == Keys(ps)[1..];
      assert Keys(ps)[0] == ps[0].key;
      CountAbsent(ps[1..], k);
    }
  }

  /** The pair `p` when `present` holds, nothing otherwise: one conditional append of `&k=v`. */
  function PairIf(present: bool, p: Param): (ps: seq<Param>)
    ensures |ps| <= 1
  {
    if present then [p] else []
  }

  lemma CountPairIf(present: bool, p: Param, k: string)
    ensures Count(PairIf(present, p), k) == if present && p.key == k then 1 else 0
  {
    if present {
      assert PairIf(present, p)[1..] == [];
    }
  }

  lemma PrefixedPairIf(present: bool, p: Param)
    ensures Prefixed(PairIf(present, p)) == if present then "&" + p.key + "=" + p.value else ""
  {
    if present {
      assert PairIf(present, p)[1..] == [];
    }
  }

  /** Appending pairs after a fragment distributes over concatenation of the lists. */
  lemma {:induction false} PrefixedConcat(a: seq<Param>, b: seq<Param>)
    ensures Prefixed(a + b) == Prefixed(a) + Prefixed(b)
  {
    if a != [] {
      assert (a + b)[1..] == a[1..] + b;
      PrefixedConcat(a[1..], b);
    } else {
      assert a + b == b;
    }
  }

  lemma PrefixedOne(p: Param)
    ensures Prefixed([p]) == "&" + p.key + "=" + p.value
  {
    assert [p][1..] == [];
  }

  /** Writing `&k=` and a value after `head` appends the pair `k=value`. */
  lemma AppendFirst(head: string, prefix: string, p: Param)
    requires prefix == "&" + p.key + "="
    ensures head + prefix + p.value == head + Prefixed([p])
  {
    PrefixedOne(p);
  }

  /** Writing `&k=` and a value after a text that ends in the pairs `ps` extends them by `k=value`. */
  lemma AppendPair(head: string, ps: seq<Param>, prefix: string, p: Param)
    requires prefix == "&" + p.key + "="
    ensures head + Prefixed(ps) + prefix + p.value == head + Prefixed(ps + [p])
  {
    PrefixedConcat(ps, [p]);
    PrefixedOne(p);
    Text.Regroup(head, Prefixed(ps), prefix, p.value);
  }

  /** A non-empty fragment followed by appended pairs is the serialization of the whole list. */
  lemma SerializeConcat(a: seq<Param>, b: seq<Param>)
    requires a != []
    ensures Serialize(a + b) == Serialize(a) + Prefixed(b)
  {
    assert (a + b)[1..] == a[1..] + b;
    PrefixedConcat(a[1..], b);
  }

  // ---------------------------------------------------------------------------
  // Reading a parameter string back
  // ---------------------------------------------------------------------------

  /** One `key=value` piece, split at its first `=`; a piece with no `=` is a key with an empty value. */
  function ParsePair(piece: string): Param
  {
    var i := Text.IndexOf(piece, '=');
    Param(piece[..i], if i < |piece| then piece[i + 1..] else "")
  }

  /** How a form body splits into pairs: on `&`, then each piece at its first `=`. */
  function ParseParameters(body: string): (ps: seq<Param>)
    ensures |ps| >= 1
  {
    var pieces := Text.Split(body, '&');
    seq(|pieces|, i requires 0 <= i < |pieces| => ParsePair(pieces[i]))
  }

  /** Keys free of `&` and `=`, values free of `&`: the pairs survive serialization. */
  predicate Clean(ps: seq<Param>)
  {
    forall i :: 0 <= i < |ps| ==> '&' !in ps[i].key && '=' !in ps[i].key && '&' !in ps[i].value
  }

  function Texts(ps: seq<Param>): (ts: seq<string>)
    ensures |ts| == |ps| && forall i :: 0 <= i < |ps| ==> ts[i] == ParamText(ps[i])
  {
    seq(|ps|, i requires 0 <= i < |ps| => ParamText(ps[i]))
  }

  lemma {:induction false} SerializeIsJoin(ps: seq<Param>)
    requires ps != []
    ensures Serialize(ps) == Text.Join(Texts(ps), '&')
  {
    if |ps| > 1 {
      SerializeIsJoin(ps[1..]);
      assert Texts(ps[1..]) == Texts(ps)[1..];
      assert Prefixed(ps[1..]) == "&" + Serialize(ps[1..]);
    }
  }

  lemma ParsePairText(p: Param)
    requires '=' !in p.key
    ensures ParsePair(ParamText(p)) == p
  {
    Text.IndexAfterPrefix(p.key, '=', p.value);
    assert ParamText(p) == p.key + ['='] + p.value;
    assert ParamText(p)[..|p.key|] == p.key;
    assert ParamText(p)[|p.key| + 1..] == p.value;
  }

  /** Reading a serialized non-empty list of clean pairs gives the list back, in order. */
  lemma ParseSerialize(ps: seq<Param>)
    requires ps != [] && Clean(ps)
    ensures ParseParameters(Serialize(ps)) == ps
  {
    var ts := Texts(ps);
    forall i | 0 <= i < |ts|
      ensures '&' !in ts[i]
    {
      assert ts[i] == ps[i].key + "=" + ps[i].value;
    }
    SerializeIsJoin(ps);
    Text.SplitJoin(ts, '&');
    forall i | 0 <= i < |ps|
      ensures ParsePair(ts[i]) == ps[i]
    {
      ParsePairText(ps[i]);
    }
  }
}
