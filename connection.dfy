/**
 * `Giginc\BigQuery\Database\Connection`: owns one BigQuery driver, can
 * replace it, delegates `disconnect` to it and disconnects it when the
 * connection is destroyed.
 */
module DatabaseConnection {
  import opened PhpValues
  import opened BigQueryDriver

  /** How a call ends: with a return value, or with an uncaught error. */
  datatype ConnectOutcome = Returned(b: bool) | Raised(error: string)

  class Connection {
    /** `_config`: the connection's configuration. */
    var config: ConfigMap
    /** `_driver`; null once the destructor has released it. */
    var driver: BigQuery?

    /**
     * The framework's constructor stores the configuration and installs a
     * driver built from `driverConfig`.
     */
    constructor (config: ConfigMap, driverConfig: ConfigMap)
      ensures this.config == config
      ensures Valid() && fresh(driver)
      ensures driver.config == ArrayMerge(BaseConfig(), driverConfig)
      ensures !driver.connected && driver.db == None && driver.notices == []
    {
      this.config := config;
      var d := new BigQuery(driverConfig);
      driver := d;
    }

    /** The connection holds a driver, and that driver is valid. */
    ghost predicate Valid()
      reads this, driver
    {
      driver != null && driver.Valid()
    }

    /** `config()`. */
    function Config(): (c: ConfigMap)
      reads this
      ensures c == config
    {
      config
    }

    /** `configName()`. */
    function ConfigName(): (name: string)
      ensures name == "bigquery"
    {
      "bigquery"
    }

    /**
     * `driver($driver, $config)`: with a null `$driver`, the current driver
     * and no change; otherwise a fresh, disconnected driver built from
     * `driverConfig` replaces it (only the nullness of `$driver` matters).
     */
    method Driver(requested: Value, driverConfig: ConfigMap) returns (d: BigQuery?)
      modifies this`driver
      ensures requested == Null ==> d == driver == old(driver)
      ensures requested != Null ==>
        && d == driver && d != null && fresh(d) && d.Valid()
        && d.config == ArrayMerge(BaseConfig(), driverConfig)
        && !d.connected && d.db == None && d.notices == []
    {
      if requested == Null {
        return driver;
      }
      driver := new BigQuery(driverConfig);
      d := driver;
    }

    /**
     * `connect()` as written: it calls the driver's `connect` without the
     * name that method requires, so PHP raises an ArgumentCountError before
     * the driver is reached. That error is not an `\Exception`, so the catch
     * clause does not turn it into a MissingConnectionException; nothing
     * changes.
     */
    method ConnectAsWritten() returns (outcome: ConnectOutcome)
      ensures outcome == Raised("ArgumentCountError")
    {
      outcome := Raised("ArgumentCountError");
    }

    /**
     * `connect()` with the driver given a name, as evidently intended: the
     * driver connects (or reports the failure and stays as it was) and,
     * since the driver catches every exception itself, the answer is always
     * true, connected or not.
     */
    method Connect(name: string, attempt: Construction) returns (outcome: ConnectOutcome)
      requires Valid()
      modifies driver`connected, driver`db, driver`notices
      ensures outcome == Returned(true)
      ensures Valid()
      ensures attempt.Constructed? ==>
        driver.connected && driver.db == Some(Client(ClientConfig(driver.config), attempt.instance))
        && driver.notices == old(driver.notices)
      ensures attempt.Threw? ==>
        driver.connected == old(driver.connected) && driver.db == old(driver.db)
        && driver.notices == old(driver.notices) + [attempt.message]
    {
      var _ := driver.Connect(name, attempt);
      outcome := Returned(true);
    }

    /**
     * `disconnect()`: the driver's own `disconnect()` result (false) when it
     * is connected; true, leaving the driver untouched, otherwise. The driver
     * is disconnected afterwards.
     */
    method Disconnect() returns (r: bool)
      requires Valid()
      modifies driver`connected
      ensures Valid() && !driver.connected
      ensures old(driver.connected) ==> !r
      ensures !old(driver.connected) ==> r && unchanged(driver)
    {
      if driver.IsConnected() {
        r := driver.Disconnect();
        return r;
      }
      return true;
    }

    /**
     * `__destruct()`: a connected driver is disconnected and the reference
     * to it dropped; a disconnected driver is kept and left untouched.
     */
    method Destruct()
      requires Valid()
      modifies this`driver, driver`connected
      ensures old(driver.connected) ==> driver == null && !old(driver).connected && old(driver).Valid()
      ensures !old(driver.connected) ==> driver == old(driver) && unchanged(driver)
    {
      if driver.connected {
        var _ := driver.Disconnect();
        driver := null;
      }
    }
  }

  /**
   * A session on one connection, reaching the driver as a table does
   * (`getConnection` with the table's name): a failed client construction
   * leaves the driver disconnected and a later successful one connects it;
   * then the first disconnect answers false and the second true, and
   * destroying the connection keeps the (disconnected) driver.
   */
  method Session(config: ConfigMap, driverConfig: ConfigMap)
    returns (afterFailure: bool, afterSuccess: bool, first: bool, second: bool, kept: bool)
    ensures !afterFailure && afterSuccess
    ensures !first && second
    ensures kept
  {
    var c := new Connection(config, driverConfig);
    var d := c.driver;
    var client := d.GetConnection("table", Threw("could not load credentials"));
    afterFailure := d.IsConnected();
    client := d.GetConnection("table", Constructed(1));
    afterSuccess := d.IsConnected();
    first := c.Disconnect();
    second := c.Disconnect();
    c.Destruct();
    kept := c.driver == d;
  }
}
