/**
 * Startup configuration: the `port` and `rootDirectory` keys of
 * `config.properties`, each with its own default.
 */
module Configuration {
  import opened Wrappers
  import opened Wire

  const DEFAULT_PORT: nat := 8080

  /** What the class loader and `Properties.load` deliver for `config.properties`. */
  datatype ConfigSource =
    | Absent                                    // no such resource on the class path
    | Unreadable                                // `load` threw an IOException
    | Loaded(properties: map<string, string>)   // the parsed key-value pairs

  datatype ServerConfig = ServerConfig(port: int, rootDirectory: string)

  const DEFAULT_CONFIG := ServerConfig(DEFAULT_PORT, "")

  /** `properties.getProperty(key, default)`. */
  function GetProperty(properties: map<string, string>, key: string, default: string): string {
    if key in properties then properties[key] else default
  }

  /**
   * The values `loadConfiguration` assigns, or `None` when `Integer.parseInt`
   * rejects the port text: that NumberFormatException is not an IOException,
   * so it escapes the constructor and the server never starts.
   */
  function Configure(source: ConfigSource): Option<ServerConfig> {
    match source
    case Loaded(properties) =>
      var port := ParseInt(GetProperty(properties, "port", NatToString(DEFAULT_PORT)));
      if port.None? then None
      else Some(ServerConfig(port.value, GetProperty(properties, "rootDirectory", "")))
    case _ => Some(DEFAULT_CONFIG)
  }

  /** Without a readable configuration file the server listens on 8080 and serves paths as given. */
  lemma DefaultsWithoutFile(source: ConfigSource)
    requires !source.Loaded?
    ensures Configure(source) == Some(ServerConfig(8080, ""))
  {
  }

  /** A loaded file that names neither key yields the same defaults. */
  lemma {:induction false} DefaultsForMissingKeys(properties: map<string, string>)
    requires "port" !in properties && "rootDirectory" !in properties
    ensures Configure(Loaded(properties)) == Some(ServerConfig(8080, ""))
  {
    ParseIntOfNatToString(DEFAULT_PORT);
  }

  /**
   * Each key defaults on its own: whether `rootDirectory` is present changes
   * neither whether startup succeeds nor the port, and a missing `port`
   * gives 8080 whatever `rootDirectory` says.
   */
  lemma {:induction false} KeysDefaultIndependently(properties: map<string, string>)
    ensures var with := Configure(Loaded(properties));
      var without := Configure(Loaded(properties - {"rootDirectory"}));
      with.Some? == without.Some? && (with.Some? ==> with.value.port == without.value.port)
    ensures "port" !in properties ==>
      Configure(Loaded(properties)) ==
        Some(ServerConfig(8080, GetProperty(properties, "rootDirectory", "")))
    ensures Configure(Loaded(properties)).Some? ==>
      Configure(Loaded(properties)).value.rootDirectory ==
        (if "rootDirectory" in properties then properties["rootDirectory"] else "")
  {
    ParseIntOfNatToString(DEFAULT_PORT);
    assert GetProperty(properties - {"rootDirectory"}, "port", NatToString(DEFAULT_PORT))
        == GetProperty(properties, "port", NatToString(DEFAULT_PORT));
  }

  /** A port written in decimal within the `int` range is the port the server gets. */
  lemma {:induction false} DecimalPortIsUsed(properties: map<string, string>, n: nat)
    requires n <= INT_MAX
    requires "port" in properties && properties["port"] == NatToString(n)
    ensures Configure(Loaded(properties)).Some?
    ensures Configure(Loaded(properties)).value.port == n
  {
    ParseIntOfNatToString(n);
  }

  /**
   * Startup fails exactly when the file names a port that `parseInt`
   * rejects; a port that is not a number stops startup instead of falling
   * back to 8080.
   */
  lemma {:induction false} MalformedPortAborts(properties: map<string, string>)
    ensures Configure(Loaded(properties)).None? <==> "port" in properties && ParseInt(properties["port"]).None?
    ensures ("port" in properties &&
        (properties["port"] == [] || !(IsDigit(properties["port"][0]) || properties["port"][0] in "+-")))
      ==> Configure(Loaded(properties)).None?
  {
    ParseIntOfNatToString(DEFAULT_PORT);
  }
}
