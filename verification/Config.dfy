/** ConfigManager (main/ConfigManager.cpp): serializeToJson and updateFromJson over one configuration map. */
module Config {
  import opened Bytes
  import opened JsonTree
  import opened ConfigSpec
  import opened ConfigTheorems

  /** An array whose first `n` elements were assigned, with no number behind them, is the assigned one. */
  lemma {:induction false} AssignedUpTo(was: bytes, items: seq<Json>, now: bytes, n: nat)
    requires |items| == |was| == |now| && n <= |was| && (n < |was| ==> !items[n].Number?)
    requires forall k :: 0 <= k < n ==> items[k].Number? && now[k] == ValueInt(items[k].n) % 256
    requires forall k :: n <= k < |was| ==> now[k] == was[k]
    ensures now == AssignRaw(was, items)
    decreases n
  {
    if n > 0 {
      AssignedUpTo(was[1..], items[1..], now[1..], n - 1);
      assert now == [now[0]] + now[1..];
    } else {
      assert now == was;
    }
  }

  /** Elements are written one by one until the first that is not a number. */
  method AssignArray(raw: array<uint8>, items: seq<Json>) returns (whole: bool)
    requires |items| == raw.Length
    modifies raw
    ensures raw[..] == AssignRaw(old(raw[..]), items)
    ensures whole <==> forall i :: 0 <= i < |items| ==> items[i].Number?
  {
    ghost var was := raw[..];
    for i := 0 to raw.Length
      invariant forall k :: 0 <= k < i ==> items[k].Number? && raw[k] == ValueInt(items[k].n) % 256
      invariant forall k :: i <= k < raw.Length ==> raw[k] == was[k]
    {
      if !items[i].Number? {
        AssignedUpTo(was, items, raw[..], i);
        return false;
      }
      raw[i] := ValueInt(items[i].n) % 256;
    }
    AssignedUpTo(was, items, raw[..], raw.Length);
    whole := true;
  }

  /** emplace: the first value of a key stays. */
  method ReadColorPairs(items: seq<Json>) returns (m: map<int, uint8>)
    ensures m == ReadColors(items)
  {
    m := map[];
    for i := 0 to |items|
      invariant m == ReadColors(items[..i])
    {
      assert items[..i + 1][..i] == items[..i];
      if IsColorPair(items[i]) {
        var key := ValueInt(items[i].items[0].n);
        if key !in m {
          m := m[key := ValueInt(items[i].items[1].n) % 256];
        }
      }
    }
    assert items[..|items|] == items;
  }

  /** operator[]: the last value of a key stays. */
  method ReadStateFields(fields: seq<(string, Json)>) returns (m: map<string, uint8>)
    ensures m == ReadStates(fields)
  {
    m := map[];
    for i := 0 to |fields|
      invariant m == ReadStates(fields[..i])
    {
      assert fields[..i + 1][..i] == fields[..i];
      if fields[i].1.Number? {
        m := m[fields[i].0 := ValueInt(fields[i].1.n) % 256];
      }
    }
    assert fields[..|fields|] == fields;
  }

  method AssignField(key: string, f: Field, j: Json) returns (r: Field)
    ensures r == Assign(key, f, j)
  {
    r := f;
    match f
    case Raw(raw) =>
      if j.Array? && |j.items| == |raw| {
        var cells := new uint8[|raw|](i requires 0 <= i < |raw| => raw[i]);
        assert cells[..] == raw;
        var whole := AssignArray(cells, j.items);
        r := Raw(cells[..]);
      }
    case Colors(_) =>
      if j.Array? {
        var m := ReadColorPairs(j.items);
        r := Colors(m);
      }
    case States(_) =>
      if j.Object? {
        var m := ReadStateFields(j.fields);
        r := States(m);
      }
    case _ => r := Assign(key, f, j);
  }

  class ConfigManager {
    var fields: Config

    constructor (defaults: Config)
      ensures fields == defaults
    {
      fields := defaults;
    }

    method SerializeToJson(o: Orders) returns (j: Json)
      requires Walk(o, fields)
      ensures j == Serialize(fields, o)
    {
      var members: seq<(string, Json)> := [];
      for i := 0 to |o.keys|
        invariant members == Serialize(fields, o).fields[..i]
      {
        var key := o.keys[i];
        members := members + [(key, FieldJson(key, fields[key], o))];
      }
      assert |Serialize(fields, o).fields| == |o.keys|;
      j := Object(members);
    }

    /** The answer is the configuration as it stands afterwards; nothing at all for a document that is not an object. */
    method UpdateFromJson(j: Json, o: Orders) returns (answer: Option<Json>)
      requires Walk(o, fields)
      modifies this
      ensures fields == Update(old(fields), j) && Walk(o, fields)
      ensures answer == if j.Object? then Some(Serialize(fields, o)) else None
    {
      ApplyJson(j);
      if !j.Object? {
        return None;
      }
      AbsentKeysUnchanged(old(fields), j.fields);
      var served := SerializeToJson(o);
      answer := Some(served);
    }

    /** The update alone, for a caller that does not look at the answer. */
    method ApplyJson(j: Json)
      modifies this
      ensures fields == Update(old(fields), j)
    {
      if !j.Object? {
        return;
      }
      var members := j.fields;
      ghost var was := fields;
      for i := 0 to |members|
        invariant fields == Apply(was, members[..i])
      {
        assert members[..i + 1][..i] == members[..i];
        var key := members[i].0;
        if key in fields {
          var next := AssignField(key, fields[key], members[i].1);
          fields := fields[key := next];
        }
      }
      assert members[..|members|] == members;
    }
  }

  /** A stale form that echoes the served document back: nothing moves, and the same document is served again. */
  method EchoBack(manager: ConfigManager, o: Orders) returns (first: Json, second: Option<Json>)
    requires Walk(o, manager.fields)
    requires forall k <- manager.fields :: FieldOk(manager.fields[k]) && !Truncated(k, manager.fields[k])
    modifies manager
    ensures manager.fields == old(manager.fields) && second == Some(first)
  {
    first := manager.SerializeToJson(o);
    GetThenPut(manager.fields, o);
    second := manager.UpdateFromJson(first, o);
  }
}
