/** What each JSON member does to a field of each type, and how each field is served. */
module ConfigLaws {
  import opened Bytes
  import opened ConfigSpec
  import opened JsonTree

  /** The mask is eight asterisks, and the two words that make a key secret may stand anywhere in it. */
  lemma SecretRule(before: string, after: string)
    ensures MASK == Ascii("********")
    ensures IsSecretKey(before + "Password" + after) && IsSecretKey(before + "Passwd" + after)
  {
    assert WordAt(before + "Password" + after, "Password", |before|);
    assert WordAt(before + "Passwd" + after, "Passwd", |before|);
  }

  /** Numbers are cut to 32 bits, keeping their sign. */
  lemma NumbersCut(n: int)
    ensures -2147483648 <= n <= 2147483647 ==> ValueInt(n) == n
    ensures n > 2147483647 ==> ValueInt(n) == 2147483647
    ensures n < -2147483648 ==> ValueInt(n) == -2147483648
  {
  }

  // ---- PUT ----

  /** A text field takes any text, except that a secret one does not take the mask; nothing else touches it. */
  lemma TextPut(key: string, before: bytes, j: Json)
    ensures Assign(key, String(before), j) ==
            if j.Text? && (j.text != Ascii("********") || !IsSecretKey(key)) then String(j.text) else String(before)
  {
    SecretRule("", "");
  }

  /** A flag takes a boolean, or a number as whether it is not zero. */
  lemma FlagPut(key: string, before: bool, j: Json)
    ensures j.Boolean? ==> Assign(key, Flag(before), j) == Flag(j.b)
    ensures j.Number? ==> Assign(key, Flag(before), j) == Flag(j.n != 0)
    ensures !j.Boolean? && !j.Number? ==> Assign(key, Flag(before), j) == Flag(before)
  {
  }

  /** A small number takes exactly the numbers in its range; out of range it keeps what it has. */
  lemma NumberPut(key: string, byte: uint8, word: uint16, j: Json)
    ensures Assign(key, U8(byte), j) == if j.Number? && 0 <= j.n <= 255 then U8(j.n) else U8(byte)
    ensures Assign(key, U16(word), j) == if j.Number? && 0 <= j.n <= 65535 then U16(j.n) else U16(word)
  {
  }

  /** A byte array takes an array of its own length, element by element up to the first that is not a number. */
  lemma RawPut(key: string, before: bytes, j: Json)
    ensures var r := Assign(key, Raw(before), j);
            && r.Raw? && |r.raw| == |before|
            && (!j.Array? || |j.items| != |before| ==> r == Raw(before))
            && (j.Array? && |j.items| == |before| ==>
                  forall i :: 0 <= i < |before| ==>
                    r.raw[i] == if NumbersUpTo(j.items, i) then ValueInt(j.items[i].n) % 256 else before[i])
  {
    if j.Array? && |j.items| == |before| {
      forall i | 0 <= i < |before|
        ensures AssignRaw(before, j.items)[i] == if NumbersUpTo(j.items, i) then ValueInt(j.items[i].n) % 256 else before[i]
      {
        RawAt(before, j.items, i);
      }
    }
  }

  /** The elements up to and including this one are numbers. */
  predicate NumbersUpTo(items: seq<Json>, i: nat)
    requires i < |items|
  {
    forall k :: 0 <= k <= i ==> items[k].Number?
  }

  lemma {:induction false} RawAt(before: bytes, items: seq<Json>, i: nat)
    requires |items| == |before| && i < |before|
    ensures AssignRaw(before, items)[i] == if NumbersUpTo(items, i) then ValueInt(items[i].n) % 256 else before[i]
  {
    if items[0].Number? && i > 0 {
      RawAt(before[1..], items[1..], i - 1);
      assert NumbersUpTo(items, i) <==> NumbersUpTo(items[1..], i - 1) by {
        assert forall k :: 0 < k <= i ==> items[k] == items[1..][k - 1];
      }
    }
  }

  /** The colour of the first well-formed pair with a key; a key without one is gone. */
  lemma ColorsPut(key: string, before: map<int, uint8>, j: Json)
    ensures !j.Array? ==> Assign(key, Colors(before), j) == Colors(before)
    ensures j.Array? ==>
              var r := Assign(key, Colors(before), j);
              r.Colors? && forall k :: if Paired(j.items, k) then
                                         k in r.colors && exists i: nat :: FirstPair(j.items, k, i) && r.colors[k] == ValueInt(j.items[i].items[1].n) % 256
                                       else k !in r.colors
  {
    if j.Array? {
      forall k
        ensures var r := ReadColors(j.items);
                if Paired(j.items, k) then
                  k in r && exists i: nat :: FirstPair(j.items, k, i) && r[k] == ValueInt(j.items[i].items[1].n) % 256
                else k !in r
      {
        ColorsAt(j.items, k);
      }
    }
  }

  predicate PairOf(items: seq<Json>, k: int, i: nat) {
    i < |items| && IsColorPair(items[i]) && ValueInt(items[i].items[0].n) == k
  }

  ghost predicate Paired(items: seq<Json>, k: int) {
    exists i: nat :: PairOf(items, k, i)
  }

  ghost predicate FirstPair(items: seq<Json>, k: int, i: nat) {
    PairOf(items, k, i) && forall m: nat :: m < i ==> !PairOf(items, k, m)
  }

  lemma {:induction false} ColorsAt(items: seq<Json>, k: int)
    ensures var r := ReadColors(items);
            if Paired(items, k) then
              k in r && exists i: nat :: FirstPair(items, k, i) && r[k] == ValueInt(items[i].items[1].n) % 256
            else k !in r
    decreases |items|
  {
    if items != [] {
      var n := |items| - 1;
      ColorsAt(items[..n], k);
      assert forall i: nat :: i < n ==> (PairOf(items, k, i) <==> PairOf(items[..n], k, i));
      if Paired(items[..n], k) {
        var i: nat :| FirstPair(items[..n], k, i) && ReadColors(items[..n])[k] == ValueInt(items[..n][i].items[1].n) % 256;
        assert FirstPair(items, k, i);
      } else if PairOf(items, k, n) {
        assert FirstPair(items, k, n);
      }
    }
  }

  /** The value of the last numeric member with a name; a name without one is gone. */
  lemma StatesPut(key: string, before: map<string, uint8>, j: Json)
    ensures !j.Object? ==> Assign(key, States(before), j) == States(before)
    ensures j.Object? ==>
              var r := Assign(key, States(before), j);
              r.States? && forall k :: if Numbered(j.fields, k) then
                                         k in r.states && exists i: nat :: LastNumber(j.fields, k, i) && r.states[k] == ValueInt(j.fields[i].1.n) % 256
                                       else k !in r.states
  {
    if j.Object? {
      forall k
        ensures var r := ReadStates(j.fields);
                if Numbered(j.fields, k) then
                  k in r && exists i: nat :: LastNumber(j.fields, k, i) && r[k] == ValueInt(j.fields[i].1.n) % 256
                else k !in r
      {
        StatesAt(j.fields, k);
      }
    }
  }

  predicate NumberOf(fields: seq<(string, Json)>, k: string, i: nat) {
    i < |fields| && fields[i].0 == k && fields[i].1.Number?
  }

  ghost predicate Numbered(fields: seq<(string, Json)>, k: string) {
    exists i: nat :: NumberOf(fields, k, i)
  }

  ghost predicate LastNumber(fields: seq<(string, Json)>, k: string, i: nat) {
    NumberOf(fields, k, i) && forall m: nat :: m > i ==> !NumberOf(fields, k, m)
  }

  lemma {:induction false} StatesAt(fields: seq<(string, Json)>, k: string)
    ensures var r := ReadStates(fields);
            if Numbered(fields, k) then k in r && exists i: nat :: LastNumber(fields, k, i) && r[k] == ValueInt(fields[i].1.n) % 256
            else k !in r
    decreases |fields|
  {
    if fields != [] {
      var n := |fields| - 1;
      StatesAt(fields[..n], k);
      assert forall i: nat :: i < n ==> (NumberOf(fields, k, i) <==> NumberOf(fields[..n], k, i));
      if NumberOf(fields, k, n) {
        assert LastNumber(fields, k, n);
      } else if Numbered(fields[..n], k) {
        var i: nat :| LastNumber(fields[..n], k, i) && ReadStates(fields[..n])[k] == ValueInt(fields[..n][i].1.n) % 256;
        assert LastNumber(fields, k, i);
      }
    }
  }

  // ---- GET ----

  /** How each type is served: texts as C strings or the mask, numbers, booleans, arrays and pairs. */
  lemma Served(key: string, text: bytes, b: bool, byte: uint8, word: uint16, raw: bytes, o: Orders)
    ensures FieldJson(key, String(text), o) == Text(if IsSecretKey(key) then Ascii("********") else UntilNul(text))
    ensures FieldJson(key, Flag(b), o) == Boolean(b)
    ensures FieldJson(key, U8(byte), o) == Number(byte) && FieldJson(key, U16(word), o) == Number(word)
    ensures var a := FieldJson(key, Raw(raw), o);
            a.Array? && |a.items| == |raw| && forall i :: 0 <= i < |raw| ==> a.items[i] == Number(raw[i])
  {
    SecretRule("", "");
  }

  lemma ServedMaps(key: string, colors: map<int, uint8>, states: map<string, uint8>, o: Orders)
    requires Lists(o.colors(colors), colors.Keys) && Lists(o.states(states), states.Keys)
    ensures var a := FieldJson(key, Colors(colors), o);
            && a.Array?
            && (forall k <- colors :: Array([Number(k), Number(colors[k])]) in a.items)
            && forall i :: 0 <= i < |a.items| ==>
                 a.items[i].Array? && |a.items[i].items| == 2 && a.items[i].items[0].Number?
                 && a.items[i].items[0].n in colors && a.items[i].items[1] == Number(colors[a.items[i].items[0].n])
    ensures var s := FieldJson(key, States(states), o);
            && s.Object?
            && (forall k <- states :: (k, Number(states[k])) in s.fields)
            && forall i :: 0 <= i < |s.fields| ==> s.fields[i].0 in states && s.fields[i].1 == Number(states[s.fields[i].0])
  {
    var co, so := o.colors(colors), o.states(states);
    forall k | k in colors
      ensures Array([Number(k), Number(colors[k])]) in ColorPairs(colors, co)
    {
      var i :| 0 <= i < |co| && co[i] == k;
      assert ColorPairs(colors, co)[i] == Array([Number(k), Number(colors[k])]);
    }
    forall k | k in states
      ensures (k, Number(states[k])) in StateFields(states, so)
    {
      var i :| 0 <= i < |so| && so[i] == k;
      assert StateFields(states, so)[i] == (k, Number(states[k]));
    }
  }
}
