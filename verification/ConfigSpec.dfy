/** Configuration as typed fields, served as JSON with its secrets masked and updated from JSON. */
module ConfigSpec {
  import opened Bytes
  import opened JsonTree

  /** The pointee types of the configuration map; `Raw` is a fixed-size byte array. */
  datatype Field =
    | String(text: bytes)
    | Flag(b: bool)
    | U8(u8: uint8)
    | U16(u16: uint16)
    | Raw(raw: bytes)
    | Colors(colors: map<int, uint8>)
    | States(states: map<string, uint8>)

  type Config = map<string, Field>

  /** "********" */
  const MASK: bytes := [42, 42, 42, 42, 42, 42, 42, 42]

  predicate WordAt(s: string, word: string, i: nat) {
    i + |word| <= |s| && s[i..i + |word|] == word
  }

  predicate ContainsWord(s: string, word: string) {
    exists i: nat | i <= |s| :: WordAt(s, word, i)
  }

  predicate IsSecretKey(key: string) {
    ContainsWord(key, "Password") || ContainsWord(key, "Passwd")
  }

  /** A std::string as the C string cJSON is handed. */
  function UntilNul(s: bytes): bytes {
    if s == [] || s[0] == 0 then [] else [s[0]] + UntilNul(s[1..])
  }

  predicate NoNul(s: bytes) {
    forall i :: 0 <= i < |s| ==> s[i] != 0
  }

  /** cJSON's valueint: the number, saturated to 32 bits. */
  function ValueInt(n: int): int {
    if n > 0x7fff_ffff then 0x7fff_ffff else if n < -0x8000_0000 then -0x8000_0000 else n
  }

  // ---- GET ----

  /** In which order the maps are walked: the whole configuration, a color map, a state map. */
  datatype Orders = Orders(keys: seq<string>, colors: map<int, uint8> -> seq<int>, states: map<string, uint8> -> seq<string>)

  ghost predicate Lists<K>(order: seq<K>, keys: set<K>) {
    (forall i :: 0 <= i < |order| ==> order[i] in keys) && (forall k <- keys :: k in order)
    && forall i, j :: 0 <= i < j < |order| ==> order[i] != order[j]
  }

  ghost predicate Walk(o: Orders, c: Config) {
    && Lists(o.keys, c.Keys)
    && (forall m: map<int, uint8> :: Lists(o.colors(m), m.Keys))
    && (forall m: map<string, uint8> :: Lists(o.states(m), m.Keys))
  }

  function ColorPairs(m: map<int, uint8>, order: seq<int>): seq<Json>
    requires forall i :: 0 <= i < |order| ==> order[i] in m
  {
    seq(|order|, i requires 0 <= i < |order| => Array([Number(order[i]), Number(m[order[i]])]))
  }

  function StateFields(m: map<string, uint8>, order: seq<string>): seq<(string, Json)>
    requires forall i :: 0 <= i < |order| ==> order[i] in m
  {
    seq(|order|, i requires 0 <= i < |order| => (order[i], Number(m[order[i]])))
  }

  function Numbers(raw: bytes): seq<Json> {
    seq(|raw|, i requires 0 <= i < |raw| => Number(raw[i]))
  }

  function FieldJson(key: string, f: Field, o: Orders): Json
    requires f.Colors? ==> forall i :: 0 <= i < |o.colors(f.colors)| ==> o.colors(f.colors)[i] in f.colors
    requires f.States? ==> forall i :: 0 <= i < |o.states(f.states)| ==> o.states(f.states)[i] in f.states
  {
    match f
    case String(text) => if IsSecretKey(key) then Text(MASK) else Text(UntilNul(text))
    case Flag(b) => Boolean(b)
    case U8(v) => Number(v)
    case U16(v) => Number(v)
    case Raw(raw) => Array(Numbers(raw))
    case Colors(m) => Array(ColorPairs(m, o.colors(m)))
    case States(m) => Object(StateFields(m, o.states(m)))
  }

  ghost function Serialize(c: Config, o: Orders): Json
    requires Walk(o, c)
  {
    Object(seq(|o.keys|, i requires 0 <= i < |o.keys| => (o.keys[i], FieldJson(o.keys[i], c[o.keys[i]], o))))
  }

  // ---- PUT ----

  /** Elements are assigned until the first that is not a number; those before it stay assigned. */
  function AssignRaw(raw: bytes, items: seq<Json>): (r: bytes)
    requires |items| == |raw|
    ensures |r| == |raw|
    decreases |raw|
  {
    if raw == [] || !items[0].Number? then raw
    else [ValueInt(items[0].n) % 256] + AssignRaw(raw[1..], items[1..])
  }

  predicate IsColorPair(j: Json) {
    j.Array? && |j.items| == 2 && j.items[0].Number? && j.items[1].Number?
  }

  /** emplace keeps the first value of a key; malformed pairs are skipped. */
  function ReadColors(items: seq<Json>): map<int, uint8> {
    if items == [] then map[]
    else
      var n := |items| - 1;
      var before := ReadColors(items[..n]);
      if !IsColorPair(items[n]) || ValueInt(items[n].items[0].n) in before then before
      else before[ValueInt(items[n].items[0].n) := ValueInt(items[n].items[1].n) % 256]
  }

  /** operator[] keeps the last value of a key; members that are not numbers are skipped. */
  function ReadStates(fields: seq<(string, Json)>): map<string, uint8> {
    if fields == [] then map[]
    else
      var n := |fields| - 1;
      var before := ReadStates(fields[..n]);
      if !fields[n].1.Number? then before else before[fields[n].0 := ValueInt(fields[n].1.n) % 256]
  }

  /** One member applied to its field; a member of the wrong type leaves the field alone. */
  function Assign(key: string, f: Field, j: Json): Field {
    match f
    case String(_) => if j.Text? && !(IsSecretKey(key) && j.text == MASK) then String(j.text) else f
    case Flag(_) => if j.Boolean? then Flag(j.b) else if j.Number? then Flag(ValueInt(j.n) != 0) else f
    case U8(_) => if j.Number? && 0 <= ValueInt(j.n) < 0x100 then U8(ValueInt(j.n)) else f
    case U16(_) => if j.Number? && 0 <= ValueInt(j.n) < 0x1_0000 then U16(ValueInt(j.n)) else f
    case Raw(raw) => if j.Array? && |j.items| == |raw| then Raw(AssignRaw(raw, j.items)) else f
    case Colors(_) => if j.Array? then Colors(ReadColors(j.items)) else f
    case States(_) => if j.Object? then States(ReadStates(j.fields)) else f
  }

  /** The members in order; unknown keys are ignored. */
  function Apply(c: Config, members: seq<(string, Json)>): Config {
    if members == [] then c
    else
      var n := |members| - 1;
      var before := Apply(c, members[..n]);
      if members[n].0 in before then before[members[n].0 := Assign(members[n].0, before[members[n].0], members[n].1)]
      else before
  }

  function Update(c: Config, j: Json): Config {
    if j.Object? then Apply(c, j.fields) else c
  }
}
