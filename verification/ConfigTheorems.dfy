/** GET then PUT is the identity, exactly when no plain string carries a NUL; absent keys never move. */
module ConfigTheorems {
  import opened Bytes
  import opened ConfigSpec
  import opened JsonTree

  lemma {:induction false} UntilNulIff(s: bytes)
    ensures UntilNul(s) == s <==> NoNul(s)
  {
    if s != [] && s[0] != 0 {
      UntilNulIff(s[1..]);
      assert s == [s[0]] + s[1..];
      assert NoNul(s) ==> NoNul(s[1..]);
      assert (UntilNul(s))[1..] == UntilNul(s[1..]);
    }
  }

  lemma {:induction false} RawBack(raw: bytes, now: bytes)
    requires |now| == |raw|
    ensures AssignRaw(now, Numbers(raw)) == raw
    decreases |raw|
  {
    if raw != [] {
      RawBack(raw[1..], now[1..]);
      assert Numbers(raw)[1..] == Numbers(raw[1..]);
    }
  }

  /** Colour keys are enumerators, which fit an int. */
  predicate IntKeys(m: map<int, uint8>) {
    forall k <- m :: ValueInt(k) == k
  }

  /** One more pair with a fresh key. */
  lemma ColorStep(m: map<int, uint8>, order: seq<int>)
    requires IntKeys(m) && order != [] && (forall i :: 0 <= i < |order| ==> order[i] in m)
    requires order[|order| - 1] !in ReadColors(ColorPairs(m, order[..|order| - 1]))
    ensures var k := order[|order| - 1];
            ReadColors(ColorPairs(m, order)) == ReadColors(ColorPairs(m, order[..|order| - 1]))[k := m[k]]
  {
    var n := |order| - 1;
    var pairs := ColorPairs(m, order);
    assert pairs[..n] == ColorPairs(m, order[..n]);
    assert pairs[n] == Array([Number(order[n]), Number(m[order[n]])]);
  }

  lemma {:induction false} ColorsBack(m: map<int, uint8>, order: seq<int>)
    requires IntKeys(m) && (forall i :: 0 <= i < |order| ==> order[i] in m)
    requires forall i, j :: 0 <= i < j < |order| ==> order[i] != order[j]
    ensures var r := ReadColors(ColorPairs(m, order));
            (forall k :: k in r <==> k in order) && forall k <- r :: r[k] == m[k]
    decreases |order|
  {
    if order != [] {
      var n := |order| - 1;
      ColorsBack(m, order[..n]);
      assert order == order[..n] + [order[n]];
      ColorStep(m, order);
    }
  }

  lemma {:induction false} StatesBack(m: map<string, uint8>, order: seq<string>)
    requires forall i :: 0 <= i < |order| ==> order[i] in m
    ensures var r := ReadStates(StateFields(m, order));
            (forall k :: k in r <==> k in order) && forall k <- r :: r[k] == m[k]
    decreases |order|
  {
    if order != [] {
      var n := |order| - 1;
      StatesBack(m, order[..n]);
      assert StateFields(m, order)[..n] == StateFields(m, order[..n]);
      assert order == order[..n] + [order[n]];
    }
  }

  lemma ColorsWhole(m: map<int, uint8>, order: seq<int>)
    requires IntKeys(m) && Lists(order, m.Keys)
    ensures ReadColors(ColorPairs(m, order)) == m
  {
    ColorsBack(m, order);
    var r := ReadColors(ColorPairs(m, order));
    forall k
      ensures k in r <==> k in m
    {
      assert k in order <==> k in m.Keys;
    }
    assert r.Keys == m.Keys;
  }

  lemma StatesWhole(m: map<string, uint8>, order: seq<string>)
    requires Lists(order, m.Keys)
    ensures ReadStates(StateFields(m, order)) == m
  {
    StatesBack(m, order);
    var r := ReadStates(StateFields(m, order));
    forall k
      ensures k in r <==> k in m
    {
      assert k in order <==> k in m.Keys;
    }
    assert r.Keys == m.Keys;
  }

  predicate FieldOk(f: Field) {
    f.Colors? ==> IntKeys(f.colors)
  }

  /** A field whose own JSON does not carry it: a plain string with a NUL. */
  predicate Truncated(key: string, f: Field) {
    f.String? && !IsSecretKey(key) && !NoNul(f.text)
  }

  /** A field applied to itself stays as it is, unless its JSON truncates it. */
  lemma FieldBack(key: string, f: Field, o: Orders)
    requires FieldOk(f)
    requires f.Colors? ==> Lists(o.colors(f.colors), f.colors.Keys)
    requires f.States? ==> Lists(o.states(f.states), f.states.Keys)
    ensures Assign(key, f, FieldJson(key, f, o)) == f <==> !Truncated(key, f)
  {
    match f
    case String(text) => UntilNulIff(text);
    case Raw(raw) => RawBack(raw, raw);
    case Colors(m) => ColorsWhole(m, o.colors(m));
    case States(m) => StatesWhole(m, o.states(m));
    case _ =>
  }

  /** The member list names this key somewhere. */
  predicate Names(members: seq<(string, Json)>, key: string) {
    exists i :: 0 <= i < |members| && members[i].0 == key
  }

  /** No update adds, removes or retypes a field, and a field whose key is absent never changes. */
  lemma {:induction false} AbsentKeysUnchanged(c: Config, members: seq<(string, Json)>)
    ensures var r := Apply(c, members);
            && r.Keys == c.Keys
            && (forall k <- c :: !Names(members, k) ==> r[k] == c[k])
            && (forall k <- c :: SameType(r[k], c[k]))
    decreases |members|
  {
    if members != [] {
      var n := |members| - 1;
      AbsentKeysUnchanged(c, members[..n]);
      assert forall k :: Names(members[..n], k) ==> Names(members, k);
    }
  }

  predicate SameType(a: Field, b: Field) {
    match (a, b)
    case (String(_), String(_)) => true
    case (Flag(_), Flag(_)) => true
    case (U8(_), U8(_)) => true
    case (U16(_), U16(_)) => true
    case (Raw(x), Raw(y)) => |x| == |y|
    case (Colors(_), Colors(_)) => true
    case (States(_), States(_)) => true
    case _ => false
  }

  predicate DistinctKeys(members: seq<(string, Json)>) {
    forall i, j :: 0 <= i < j < |members| ==> members[i].0 != members[j].0
  }

  /** With distinct keys, each named field is assigned once, from the value it had before. */
  lemma {:induction false} AppliedOnce(c: Config, members: seq<(string, Json)>, i: nat)
    requires DistinctKeys(members) && i < |members| && members[i].0 in c
    ensures members[i].0 in Apply(c, members)
    ensures Apply(c, members)[members[i].0] == Assign(members[i].0, c[members[i].0], members[i].1)
    decreases |members|
  {
    var n := |members| - 1;
    AbsentKeysUnchanged(c, members[..n]);
    if i < n {
      assert members[..n][i] == members[i];
      AppliedOnce(c, members[..n], i);
    }
  }

  /** A prefix of the served document, applied: exactly the keys it names were assigned. */
  lemma AppliedPrefix(c: Config, o: Orders, n: nat)
    requires Walk(o, c) && n <= |o.keys|
    ensures var r := Apply(c, Serialize(c, o).fields[..n]);
            && r.Keys == c.Keys
            && (forall i :: 0 <= i < n ==> r[o.keys[i]] == Assign(o.keys[i], c[o.keys[i]], FieldJson(o.keys[i], c[o.keys[i]], o)))
            && (forall i :: n <= i < |o.keys| ==> r[o.keys[i]] == c[o.keys[i]])
  {
    var members := Serialize(c, o).fields[..n];
    var r := Apply(c, members);
    assert forall i :: 0 <= i < n ==> members[i].0 == o.keys[i];
    AbsentKeysUnchanged(c, members);
    forall i | 0 <= i < n
      ensures r[o.keys[i]] == Assign(o.keys[i], c[o.keys[i]], FieldJson(o.keys[i], c[o.keys[i]], o))
    {
      AppliedOnce(c, members, i);
    }
    forall i | n <= i < |o.keys|
      ensures !Names(members, o.keys[i])
    {
    }
  }

  /**
   * Serving the configuration and putting the served document back changes nothing, secrets
   * included, exactly when no plain string contains a NUL.
   */
  lemma GetThenPut(c: Config, o: Orders)
    requires Walk(o, c) && forall k <- c :: FieldOk(c[k])
    ensures Update(c, Serialize(c, o)) == c <==> forall k <- c :: !Truncated(k, c[k])
  {
    AppliedPrefix(c, o, |o.keys|);
    var fields := Serialize(c, o).fields;
    assert fields[..|fields|] == fields;
    var r := Update(c, Serialize(c, o));
    forall k | k in c
      ensures r[k] == c[k] <==> !Truncated(k, c[k])
    {
      var i :| 0 <= i < |o.keys| && o.keys[i] == k;
      FieldBack(k, c[k], o);
    }
    if r != c {
      assert exists k :: k in c && r[k] != c[k];
    }
  }

  /** A plain string with a NUL inside comes back cut at it. */
  lemma NulIsLost(o: Orders, key: string)
    requires !IsSecretKey(key) && Walk(o, map[key := String([97, 0, 98])])
    ensures Update(map[key := String([97, 0, 98])], Serialize(map[key := String([97, 0, 98])], o)) == map[key := String([97])]
  {
    var c := map[key := String([97, 0, 98])];
    AppliedPrefix(c, o, |o.keys|);
    var fields := Serialize(c, o).fields;
    assert fields[..|fields|] == fields;
    assert key in c.Keys;
    var i :| 0 <= i < |o.keys| && o.keys[i] == key;
    assert UntilNul([97, 0, 98]) == [97] by {
      assert [97, 0, 98][1..] == [0, 98];
    }
    assert Assign(key, c[key], FieldJson(key, c[key], o)) == String([97]);
  }

  /** Secrets never leave: the served value of a secret string is the mask, whatever it is. */
  lemma SecretsMasked(c: Config, other: Config, o: Orders, key: string)
    requires Walk(o, c) && Walk(o, other) && key in c && c[key].String? && IsSecretKey(key)
    requires other == c[key := other[key]] && other[key].String?
    ensures Serialize(c, o) == Serialize(other, o)
  {
  }
}
