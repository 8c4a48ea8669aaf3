/**
 * The node configuration a backup carries, and the unescaped text through which a restore feeds it
 * to the configuration.
 */
module NodeSettings {
  import opened Bytes
  import opened ConfigSpec
  import opened ConfigTheorems
  import opened JsonTree

  datatype Settings = Settings(
    deviceName: bytes, mqttBroker: bytes, mqttPort: uint16, mqttClientId: bytes, mqttUsername: bytes, mqttPassword: bytes,
    useSsl: bool, allowInsecure: bool, discovery: bool, webAuth: bool,
    webUsername: bytes, webPassword: bytes, accessPointPassword: bytes)

  /** The node_config member of a backup's payload. */
  function ConfigDoc(s: Settings): Json {
    Object([
      ("device_name", Text(s.deviceName)), ("mqtt_broker", Text(s.mqttBroker)), ("mqtt_port", Number(s.mqttPort)),
      ("mqtt_client_id", Text(s.mqttClientId)), ("mqtt_username", Text(s.mqttUsername)),
      ("mqtt_password", Text(s.mqttPassword)), ("mqtt_use_ssl", Boolean(s.useSsl)),
      ("mqtt_allow_insecure", Boolean(s.allowInsecure)), ("mqtt_hass_discovery", Boolean(s.discovery)),
      ("web_auth_enabled", Boolean(s.webAuth)), ("web_username", Text(s.webUsername)),
      ("web_password", Text(s.webPassword)), ("access_point_password", Text(s.accessPointPassword))])
  }

  // ---- What a restore reads ----

  /** cJSON's valueint of any item. */
  function IntOf(j: Json): int {
    match j
    case Number(n) => ValueInt(n)
    case Boolean(b) => if b then 1 else 0
    case _ => 0
  }

  function PortOf(config: Option<Json>): int {
    var item := Get(config, "mqtt_port");
    if item.None? then 1883 else IntOf(item.value)
  }

  /** A flag is read as a string that says "true". */
  function FlagOf(config: Option<Json>, key: string): Json {
    Boolean(GetText(config, key, []) == Ascii("true"))
  }

  function MqttFields(config: Option<Json>): seq<(string, Json)> {
    [("mqttBroker", Text(GetText(config, "mqtt_broker", []))), ("mqttPort", Number(PortOf(config))),
     ("mqttClientId", Text(GetText(config, "mqtt_client_id", []))),
     ("mqttUsername", Text(GetText(config, "mqtt_username", []))),
     ("mqttPassword", Text(GetText(config, "mqtt_password", []))),
     ("useSSL", FlagOf(config, "mqtt_use_ssl")), ("allowInsecure", FlagOf(config, "mqtt_allow_insecure")),
     ("hassMqttDiscoveryEnabled", FlagOf(config, "mqtt_hass_discovery"))]
  }

  function MiscFields(config: Option<Json>): seq<(string, Json)> {
    [("deviceName", Text(GetText(config, "device_name", []))), ("webAuthEnabled", FlagOf(config, "web_auth_enabled")),
     ("webUsername", Text(GetText(config, "web_username", []))), ("webPassword", Text(GetText(config, "web_password", []))),
     ("accessPointPassword", Text(GetText(config, "access_point_password", [])))]
  }

  // ---- The text in between: values are pasted without escaping ----

  function Digits(n: nat): bytes {
    if n < 10 then [48 + n] else Digits(n / 10) + [48 + n % 10]
  }

  function SpellValue(j: Json): bytes {
    match j
    case Text(t) => [34] + t + [34]
    case Number(n) => if n < 0 then [45] + Digits(-n) else Digits(n)
    case Boolean(b) => Ascii(if b then "true" else "false")
    case _ => Ascii("null")
  }

  function SpellField(field: (string, Json)): bytes {
    [34] + Ascii(field.0) + [34, 58] + SpellValue(field.1)
  }

  /** Parts with a comma between each two. */
  function Joined(parts: seq<bytes>): bytes {
    if parts == [] then []
    else if |parts| == 1 then parts[0]
    else parts[0] + ([44] + Joined(parts[1..]))
  }

  function Parts(fields: seq<(string, Json)>): (parts: seq<bytes>)
    ensures |parts| == |fields| && forall i :: 0 <= i < |parts| ==> parts[i] == SpellField(fields[i])
  {
    seq(|fields|, i requires 0 <= i < |fields| => SpellField(fields[i]))
  }

  function SpellFields(fields: seq<(string, Json)>): bytes {
    Joined(Parts(fields))
  }

  function Spell(fields: seq<(string, Json)>): bytes {
    [123] + SpellFields(fields) + [125]
  }

  /** One member as it is pasted: its quoted key, a colon, and its value. */
  lemma PastedMember(key: string, j: Json)
    ensures Spell([(key, j)]) == [123, 34] + Ascii(key) + [34, 58] + SpellValue(j) + [125]
  {
  }

  /** Texts in quotes as they are, flags as words, numbers in decimal. */
  lemma PastedValues(text: bytes)
    ensures SpellValue(Text(text)) == [34] + text + [34]
    ensures SpellValue(Boolean(true)) == [116, 114, 117, 101] && SpellValue(Boolean(false)) == [102, 97, 108, 115, 101]
    ensures SpellValue(Number(1883)) == [49, 56, 56, 51] && SpellValue(Number(-7)) == [45, 55] && SpellValue(Number(0)) == [48]
  {
    assert Digits(18) == [49, 56];
    assert Digits(188) == [49, 56, 56];
  }

  function DecimalValue(digits: bytes): int {
    if digits == [] then 0 else 10 * DecimalValue(digits[..|digits| - 1]) + digits[|digits| - 1] - 48
  }

  /** Decimal digits spell the number they stand for, without leading zeros. */
  lemma {:induction false} DigitsSpell(n: nat)
    ensures var d := Digits(n);
            && DecimalValue(d) == n && d != [] && (|d| > 1 ==> d[0] != 48) && (n == 0 <==> d == [48])
            && forall i :: 0 <= i < |d| ==> 48 <= d[i] <= 57
  {
    if n >= 10 {
      DigitsSpell(n / 10);
      assert Digits(n)[..|Digits(n)| - 1] == Digits(n / 10);
    } else {
      assert Digits(n)[..0] == [];
    }
  }

  /** Members follow each other with a comma in between. */
  lemma PastedMembers(a: seq<(string, Json)>, b: seq<(string, Json)>)
    requires a != [] && b != []
    ensures SpellFields(a + b) == SpellFields(a) + ([44] + SpellFields(b))
  {
    PartsAppend(a, b);
    JoinedAppend(Parts(a), Parts(b));
  }

  lemma PartsAppend(a: seq<(string, Json)>, b: seq<(string, Json)>)
    ensures Parts(a + b) == Parts(a) + Parts(b)
  {
    forall i | 0 <= i < |a + b|
      ensures Parts(a + b)[i] == (Parts(a) + Parts(b))[i]
    {
      assert (a + b)[i] == if i < |a| then a[i] else b[i - |a|];
    }
  }

  lemma {:induction false} JoinedAppend(a: seq<bytes>, b: seq<bytes>)
    requires a != [] && b != []
    ensures Joined(a + b) == Joined(a) + ([44] + Joined(b))
  {
    assert (a + b)[0] == a[0] && (a + b)[1..] == a[1..] + b;
    if |a| > 1 {
      JoinedAppend(a[1..], b);
      assert a[0] + ([44] + (Joined(a[1..]) + ([44] + Joined(b)))) == (a[0] + ([44] + Joined(a[1..]))) + ([44] + Joined(b));
    } else {
      assert a[1..] + b == b;
    }
  }

  /** updateFromJson over the pasted text: nothing happens when it does not parse. */
  function UpdateText(parse: bytes -> Option<Json>, c: Config, fields: seq<(string, Json)>): Config {
    var j := parse(Spell(fields));
    if j.None? then c else Update(c, j.value)
  }

  /** No value breaks out of its quotes: the text parses to what it spells. */
  ghost predicate Readable(parse: bytes -> Option<Json>, config: Option<Json>) {
    && parse(Spell(MqttFields(config))) == Some(Object(MqttFields(config)))
    && parse(Spell(MiscFields(config))) == Some(Object(MiscFields(config)))
  }

  // ---- What survives ----

  lemma {:induction false} FindField(fields: seq<(string, Json)>, n: nat)
    requires n < |fields| && forall j :: 0 <= j < n ==> fields[j].0 != fields[n].0
    ensures Find(fields, fields[n].0) == Some(fields[n].1)
  {
    if n > 0 {
      assert fields[1..][n - 1] == fields[n];
      FindField(fields[1..], n - 1);
    }
  }

  /** The texts and the port of a backup are read back. */
  lemma ServerRead(s: Settings)
    ensures GetText(Some(ConfigDoc(s)), "mqtt_broker", []) == s.mqttBroker && PortOf(Some(ConfigDoc(s))) == s.mqttPort
  {
    var f := ConfigDoc(s).fields;
    FindField(f, 1);
    FindField(f, 2);
  }

  lemma LoginRead(s: Settings)
    ensures var d := Some(ConfigDoc(s));
            && GetText(d, "mqtt_client_id", []) == s.mqttClientId && GetText(d, "mqtt_username", []) == s.mqttUsername
            && GetText(d, "mqtt_password", []) == s.mqttPassword
  {
    var f := ConfigDoc(s).fields;
    FindField(f, 3);
    FindField(f, 4);
    FindField(f, 5);
  }

  lemma WebTextsRead(s: Settings)
    ensures var d := Some(ConfigDoc(s));
            && GetText(d, "device_name", []) == s.deviceName && GetText(d, "web_username", []) == s.webUsername
            && GetText(d, "web_password", []) == s.webPassword
            && GetText(d, "access_point_password", []) == s.accessPointPassword
  {
    var f := ConfigDoc(s).fields;
    FindField(f, 0);
    FindField(f, 10);
    FindField(f, 11);
    FindField(f, 12);
  }

  /** None of its flags is: they are JSON booleans, not strings. */
  lemma FlagsNotRead(s: Settings)
    ensures var d := Some(ConfigDoc(s));
            && FlagOf(d, "mqtt_use_ssl") == Boolean(false) && FlagOf(d, "mqtt_allow_insecure") == Boolean(false)
            && FlagOf(d, "mqtt_hass_discovery") == Boolean(false)
  {
    var f := ConfigDoc(s).fields;
    FindField(f, 6);
    FindField(f, 7);
    FindField(f, 8);
  }

  lemma WebFlagNotRead(s: Settings)
    ensures FlagOf(Some(ConfigDoc(s)), "web_auth_enabled") == Boolean(false)
  {
    FindField(ConfigDoc(s).fields, 9);
  }

  /** A key without a capital P holds neither word of the secret-key rule. */
  lemma Plain(key: string)
    requires forall i :: 0 <= i < |key| ==> key[i] != 'P'
    ensures !IsSecretKey(key)
  {
    forall word: string, i: nat | WordAt(key, word, i) && word != []
      ensures word[0] != 'P'
    {
      assert key[i..i + |word|][0] == key[i];
    }
  }

  lemma NamesSecret(key: string, i: nat)
    requires WordAt(key, "Password", i)
    ensures IsSecretKey(key)
  {
  }

  /** A configuration whose fields have the types the firmware gives them. */
  predicate MqttShaped(c: Config) {
    && "mqttBroker" in c && c["mqttBroker"].String? && "mqttPort" in c && c["mqttPort"].U16?
    && "mqttClientId" in c && c["mqttClientId"].String? && "mqttUsername" in c && c["mqttUsername"].String?
    && "mqttPassword" in c && c["mqttPassword"].String?
    && "useSSL" in c && c["useSSL"].Flag? && "allowInsecure" in c && c["allowInsecure"].Flag?
    && "hassMqttDiscoveryEnabled" in c && c["hassMqttDiscoveryEnabled"].Flag?
  }

  predicate MiscShaped(c: Config) {
    && "deviceName" in c && c["deviceName"].String? && "webAuthEnabled" in c && c["webAuthEnabled"].Flag?
    && "webUsername" in c && c["webUsername"].String? && "webPassword" in c && c["webPassword"].String?
    && "accessPointPassword" in c && c["accessPointPassword"].String?
  }

  /** A secret that is the mask itself is taken for an unchanged one. */
  function Secret(before: Field, text: bytes): Field {
    if text == MASK then before else String(text)
  }

  /** The MQTT settings after a restore are the backup's texts and port, and no flag is set. */
  ghost predicate MqttTaken(before: Config, after: Config, s: Settings)
    requires MqttShaped(before)
  {
    && after.Keys == before.Keys
    && after["mqttBroker"] == String(s.mqttBroker) && after["mqttPort"] == U16(s.mqttPort)
    && after["mqttClientId"] == String(s.mqttClientId) && after["mqttUsername"] == String(s.mqttUsername)
    && after["mqttPassword"] == Secret(before["mqttPassword"], s.mqttPassword)
    && after["useSSL"] == Flag(false) && after["allowInsecure"] == Flag(false)
    && after["hassMqttDiscoveryEnabled"] == Flag(false)
    && forall k <- before :: !Names(MqttFields(None), k) ==> after[k] == before[k]
  }

  /** The device name and the web settings after a restore, likewise. */
  ghost predicate MiscTaken(before: Config, after: Config, s: Settings)
    requires MiscShaped(before)
  {
    && after.Keys == before.Keys
    && after["deviceName"] == String(s.deviceName) && after["webUsername"] == String(s.webUsername)
    && after["webPassword"] == Secret(before["webPassword"], s.webPassword)
    && after["accessPointPassword"] == Secret(before["accessPointPassword"], s.accessPointPassword)
    && after["webAuthEnabled"] == Flag(false)
    && forall k <- before :: !Names(MiscFields(None), k) ==> after[k] == before[k]
  }

  lemma TextTaken(c: Config, members: seq<(string, Json)>, i: nat)
    requires DistinctKeys(members) && i < |members| && members[i].0 in c && c[members[i].0].String? && members[i].1.Text?
    ensures var key, text := members[i].0, members[i].1.text;
            && key in Apply(c, members)
            && Apply(c, members)[key] == if IsSecretKey(key) then Secret(c[key], text) else String(text)
  {
    AppliedOnce(c, members, i);
  }

  lemma FlagCleared(c: Config, members: seq<(string, Json)>, i: nat)
    requires DistinctKeys(members) && i < |members| && members[i].0 in c && c[members[i].0].Flag?
    requires members[i].1 == Boolean(false)
    ensures members[i].0 in Apply(c, members) && Apply(c, members)[members[i].0] == Flag(false)
  {
    AppliedOnce(c, members, i);
  }

  lemma MqttKeys(config: Option<Json>)
    ensures DistinctKeys(MqttFields(config)) && DistinctKeys(MiscFields(config))
  {
  }

  lemma SameNames(a: seq<(string, Json)>, b: seq<(string, Json)>)
    requires |a| == |b| && forall i :: 0 <= i < |a| ==> a[i].0 == b[i].0
    ensures forall k :: Names(a, k) <==> Names(b, k)
  {
    forall k
      ensures Names(a, k) <==> Names(b, k)
    {
      if i :| 0 <= i < |a| && a[i].0 == k { assert b[i].0 == k; }
      if i :| 0 <= i < |b| && b[i].0 == k { assert a[i].0 == k; }
    }
  }

  /**
   * Texts and port are taken over, a password that is the mask is not, every flag ends false
   * whatever it was, and nothing else moves.
   */
  lemma MqttRestored(parse: bytes -> Option<Json>, c: Config, s: Settings)
    requires MqttShaped(c) && Readable(parse, Some(ConfigDoc(s)))
    ensures MqttTaken(c, UpdateText(parse, c, MqttFields(Some(ConfigDoc(s)))), s)
  {
    var m := MqttFields(Some(ConfigDoc(s)));
    assert Update(c, Object(m)) == Apply(c, m);
    MqttServer(c, s);
    MqttLogin(c, s);
    MqttFlags(c, s);
    MqttOthers(c, Some(ConfigDoc(s)));
  }

  lemma MqttOthers(c: Config, config: Option<Json>)
    ensures var r := Apply(c, MqttFields(config));
            r.Keys == c.Keys && forall k <- c :: !Names(MqttFields(None), k) ==> r[k] == c[k]
  {
    AbsentKeysUnchanged(c, MqttFields(config));
    SameNames(MqttFields(config), MqttFields(None));
  }

  /** Which of the restored keys the mask rule applies to. */
  lemma PlainKeys()
    ensures !IsSecretKey("mqttBroker") && !IsSecretKey("mqttClientId") && !IsSecretKey("mqttUsername")
    ensures !IsSecretKey("deviceName") && !IsSecretKey("webUsername")
  {
    Plain("mqttBroker");
    Plain("mqttClientId");
    Plain("mqttUsername");
    Plain("deviceName");
    Plain("webUsername");
  }

  lemma MqttPasswordIsSecret()
    ensures IsSecretKey("mqttPassword")
  {
    NamesSecret("mqttPassword", 4);
  }

  lemma WebPasswordsAreSecret()
    ensures IsSecretKey("webPassword") && IsSecretKey("accessPointPassword")
  {
    NamesSecret("webPassword", 3);
    NamesSecret("accessPointPassword", 11);
  }

  lemma MqttServer(c: Config, s: Settings)
    requires MqttShaped(c)
    ensures var r := Apply(c, MqttFields(Some(ConfigDoc(s))));
            && "mqttBroker" in r && r["mqttBroker"] == String(s.mqttBroker)
            && "mqttPort" in r && r["mqttPort"] == U16(s.mqttPort)
  {
    var m := MqttFields(Some(ConfigDoc(s)));
    ServerRead(s);
    MqttKeys(Some(ConfigDoc(s)));
    PlainKeys();
    TextTaken(c, m, 0);
    AppliedOnce(c, m, 1);
  }

  lemma MqttLogin(c: Config, s: Settings)
    requires MqttShaped(c)
    ensures var r := Apply(c, MqttFields(Some(ConfigDoc(s))));
            && "mqttClientId" in r && r["mqttClientId"] == String(s.mqttClientId)
            && "mqttUsername" in r && r["mqttUsername"] == String(s.mqttUsername)
            && "mqttPassword" in r && r["mqttPassword"] == Secret(c["mqttPassword"], s.mqttPassword)
  {
    var m := MqttFields(Some(ConfigDoc(s)));
    LoginRead(s);
    MqttKeys(Some(ConfigDoc(s)));
    PlainKeys();
    MqttPasswordIsSecret();
    TextTaken(c, m, 2);
    TextTaken(c, m, 3);
    TextTaken(c, m, 4);
  }

  lemma MqttFlags(c: Config, s: Settings)
    requires MqttShaped(c)
    ensures var r := Apply(c, MqttFields(Some(ConfigDoc(s))));
            && "useSSL" in r && r["useSSL"] == Flag(false) && "allowInsecure" in r && r["allowInsecure"] == Flag(false)
            && "hassMqttDiscoveryEnabled" in r && r["hassMqttDiscoveryEnabled"] == Flag(false)
  {
    var m := MqttFields(Some(ConfigDoc(s)));
    FlagsNotRead(s);
    MqttKeys(Some(ConfigDoc(s)));
    FlagCleared(c, m, 5);
    FlagCleared(c, m, 6);
    FlagCleared(c, m, 7);
  }

  lemma MiscRestored(parse: bytes -> Option<Json>, c: Config, s: Settings)
    requires MiscShaped(c) && Readable(parse, Some(ConfigDoc(s)))
    ensures MiscTaken(c, UpdateText(parse, c, MiscFields(Some(ConfigDoc(s)))), s)
  {
    var m := MiscFields(Some(ConfigDoc(s)));
    assert Update(c, Object(m)) == Apply(c, m);
    MiscTexts(c, s);
    MiscFlag(c, s);
    MiscOthers(c, Some(ConfigDoc(s)));
  }

  lemma MiscOthers(c: Config, config: Option<Json>)
    ensures var r := Apply(c, MiscFields(config));
            r.Keys == c.Keys && forall k <- c :: !Names(MiscFields(None), k) ==> r[k] == c[k]
  {
    AbsentKeysUnchanged(c, MiscFields(config));
    SameNames(MiscFields(config), MiscFields(None));
  }

  lemma MiscFlag(c: Config, s: Settings)
    requires MiscShaped(c)
    ensures var r := Apply(c, MiscFields(Some(ConfigDoc(s))));
            "webAuthEnabled" in r && r["webAuthEnabled"] == Flag(false)
  {
    WebFlagNotRead(s);
    MqttKeys(Some(ConfigDoc(s)));
    FlagCleared(c, MiscFields(Some(ConfigDoc(s))), 1);
  }

  lemma MiscTexts(c: Config, s: Settings)
    requires MiscShaped(c)
    ensures var r := Apply(c, MiscFields(Some(ConfigDoc(s))));
            && "deviceName" in r && r["deviceName"] == String(s.deviceName)
            && "webUsername" in r && r["webUsername"] == String(s.webUsername)
            && "webPassword" in r && r["webPassword"] == Secret(c["webPassword"], s.webPassword)
            && "accessPointPassword" in r
            && r["accessPointPassword"] == Secret(c["accessPointPassword"], s.accessPointPassword)
  {
    var m := MiscFields(Some(ConfigDoc(s)));
    WebTextsRead(s);
    MqttKeys(Some(ConfigDoc(s)));
    PlainKeys();
    WebPasswordsAreSecret();
    TextTaken(c, m, 0);
    TextTaken(c, m, 2);
    TextTaken(c, m, 3);
    TextTaken(c, m, 4);
  }
}
