/**
 * `Giginc\BigQuery\Database\Driver\BigQuery`: the driver's configuration
 * (caller values merged over `_baseConfig`), the projection of that
 * configuration handed to the BigQuery client, and the connection state
 * (`connected` and the client `_db`).
 */
module BigQueryDriver {
  import opened PhpValues

  type ConfigMap = map<string, Value>

  /** `_baseConfig`. */
  function BaseConfig(): (r: ConfigMap)
    ensures RequiredClientKeys <= r.Keys
    ensures forall k :: k in OptionalClientKeys ==> k in r && !Truthy(r[k])
  {
    map[
      "projectId" := Null,
      "dataSet" := Null,
      "keyFile" := List([]),
      "keyFilePath" := Null,
      "requestTimeout" := Int(0),
      "retries" := Int(3),
      "location" := Str(""),
      "maximumBytesBilled" := Int(1000000)
    ]
  }

  /** `array_merge($base, $over)` on string keys: a key of `$over` wins. */
  function ArrayMerge(base: ConfigMap, over: ConfigMap): (r: ConfigMap)
    ensures r.Keys == base.Keys + over.Keys
    ensures forall k :: k in over ==> r[k] == over[k]
    ensures forall k :: k in base && k !in over ==> r[k] == base[k]
  {
    base + over
  }

  /** `$config[$key]`: null (after a warning) when the key is missing. */
  function Lookup(c: ConfigMap, key: string): Value {
    if key in c then c[key] else Null
  }

  /** Keys the client configuration always carries. */
  const RequiredClientKeys: set<string> := {"projectId", "requestTimeout", "retries"}

  /** Keys the client configuration carries only when their value is truthy. */
  const OptionalClientKeys: set<string> := {"keyFile", "keyFilePath", "location"}

  /** The configuration `connect` passes to `new BigQueryClient(...)`. */
  function ClientConfig(c: ConfigMap): (r: ConfigMap)
    ensures r.Keys == RequiredClientKeys + (set k | k in OptionalClientKeys && Truthy(Lookup(c, k)))
    ensures forall k :: k in r ==> r[k] == Lookup(c, k)
  {
    var required := map[
      "projectId" := Lookup(c, "projectId"),
      "requestTimeout" := Lookup(c, "requestTimeout"),
      "retries" := Lookup(c, "retries")
    ];
    var withKeyFile := if Truthy(Lookup(c, "keyFile")) then required["keyFile" := Lookup(c, "keyFile")] else required;
    var withKeyFilePath :=
      if Truthy(Lookup(c, "keyFilePath")) then withKeyFile["keyFilePath" := Lookup(c, "keyFilePath")] else withKeyFile;
    if Truthy(Lookup(c, "location")) then withKeyFilePath["location" := Lookup(c, "location")] else withKeyFilePath
  }

  /**
   * Over the defaults, the client configuration carries the three required
   * keys (with their defaults when the caller gave none) and exactly those
   * optional keys the caller set to a truthy value.
   */
  lemma ClientConfigOverDefaults(user: ConfigMap)
    ensures var r := ClientConfig(ArrayMerge(BaseConfig(), user));
      && r.Keys == RequiredClientKeys + (set k | k in OptionalClientKeys && k in user && Truthy(user[k]))
      && r["projectId"] == Lookup(user, "projectId")
      && r["requestTimeout"] == (if "requestTimeout" in user then user["requestTimeout"] else Int(0))
      && r["retries"] == (if "retries" in user then user["retries"] else Int(3))
  {
    var c := ArrayMerge(BaseConfig(), user);
    forall k | k in OptionalClientKeys
      ensures Truthy(Lookup(c, k)) <==> k in user && Truthy(user[k])
    {
      assert k in BaseConfig() && !Truthy(BaseConfig()[k]);
    }
  }

  /** A client built from a configuration; `instance` tells two constructions apart. */
  datatype Client = Client(config: ConfigMap, instance: nat)

  /** What `new BigQueryClient($config)` does: construct a client, or throw. */
  datatype Construction = Constructed(instance: nat) | Threw(message: string)

  /** `getConfig($key)`: one value, or the whole configuration for a falsy key. */
  datatype ConfigRead = Whole(config: ConfigMap) | Single(value: Value)

  class BigQuery {
    /** `_config`: the merged configuration. */
    var config: ConfigMap
    var connected: bool
    /** `_db`: the client, None until the first successful connect. */
    var db: Option<Client>
    /** Messages passed to `trigger_error`. */
    var notices: seq<string>

    /** A connected driver holds a client. */
    ghost predicate Valid()
      reads this
    {
      connected ==> db.Some?
    }

    /** `__construct($config)`: starts disconnected, without a client. */
    constructor (userConfig: ConfigMap)
      ensures Valid()
      ensures config.Keys == BaseConfig().Keys + userConfig.Keys
      ensures forall k :: k in userConfig ==> config[k] == userConfig[k]
      ensures forall k :: k in BaseConfig() && k !in userConfig ==> config[k] == BaseConfig()[k]
      ensures !connected && db == None && notices == []
    {
      config := ArrayMerge(BaseConfig(), userConfig);
      connected := false;
      db := None;
      notices := [];
    }

    /**
     * `getConfig($key)`: "" and "0" are falsy in PHP and give the whole
     * configuration; any other key gives its value, null when unknown.
     */
    function GetConfig(key: string): (r: ConfigRead)
      reads this
      ensures key == "" || key == "0" ==> r == Whole(config)
      ensures key != "" && key != "0" ==> r.Single? && (key in config ==> r.value == config[key])
      ensures key != "" && key != "0" && key !in config ==> r == Single(Null)
    {
      if Truthy(Str(key)) then Single(Lookup(config, key)) else Whole(config)
    }

    predicate IsConnected()
      reads this
    {
      connected
    }

    /** `enabled()`. */
    function Enabled(): (r: bool)
      ensures r
    {
      true
    }

    /**
     * `connect($name)`: builds the client from ClientConfig(config). On
     * success the driver is connected to the new client; when construction
     * throws, the message is reported and nothing else changes. Returns the
     * flag either way. `name` is not used.
     */
    method Connect(name: string, attempt: Construction) returns (ok: bool)
      requires Valid()
      modifies this`connected, this`db, this`notices
      ensures Valid()
      ensures attempt.Constructed? ==>
        connected && db == Some(Client(ClientConfig(config), attempt.instance)) && notices == old(notices)
      ensures attempt.Threw? ==>
        connected == old(connected) && db == old(db) && notices == old(notices) + [attempt.message]
      ensures ok == connected
    {
      var clientConfig := ClientConfig(config);
      match attempt {
        case Constructed(instance) =>
          db := Some(Client(clientConfig, instance));
          connected := true;
        case Threw(message) =>
          notices := notices + [message];
      }
      ok := connected;
    }

    /**
     * `getConnection($name)`: connects only when not connected, then returns
     * `_db`, which after a failed reconnect is the client of an earlier
     * connection.
     */
    method GetConnection(name: string, attempt: Construction) returns (client: Option<Client>)
      requires Valid()
      modifies this`connected, this`db, this`notices
      ensures Valid()
      ensures old(connected) ==> connected && db == old(db) && notices == old(notices)
      ensures !old(connected) && attempt.Constructed? ==>
        connected && db == Some(Client(ClientConfig(config), attempt.instance)) && notices == old(notices)
      ensures !old(connected) && attempt.Threw? ==>
        !connected && db == old(db) && notices == old(notices) + [attempt.message]
      ensures client == db
      ensures connected ==> client.Some?
    {
      if !IsConnected() {
        var _ := Connect(name, attempt);
      }
      client := db;
    }

    /**
     * `disconnect()`: clears the flag and returns false when connected;
     * returns true and changes nothing otherwise. The client is kept.
     */
    method Disconnect() returns (r: bool)
      requires Valid()
      modifies this`connected
      ensures Valid()
      ensures !IsConnected()
      ensures r <==> !old(connected)
    {
      if connected {
        connected := false;
        return connected;
      }
      return true;
    }
  }

  /** What the merged configuration gives back through `getConfig`. */
  lemma GetConfigAfterConstruction(d: BigQuery, user: ConfigMap, key: string)
    requires d.config == ArrayMerge(BaseConfig(), user)
    requires key != "" && key != "0"
    ensures key in user ==> d.GetConfig(key) == Single(user[key])
    ensures key !in user && key in BaseConfig() ==> d.GetConfig(key) == Single(BaseConfig()[key])
    ensures key !in user && key !in BaseConfig() ==> d.GetConfig(key) == Single(Null)
    ensures d.GetConfig("") == Whole(d.config)
  {
  }
}
