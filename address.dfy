/**
 The notifier's target: the address that switches the relay on or off.
 */
module Address {
  import opened Configuration

  const Scheme: string := "http://"

  /** The route the relay serves for the requested state. */
  function Route(remote: Remote, turnOn: bool): string {
    if turnOn then remote.routeOn else remote.routeOff
  }

  /**
   The address built by appending the host and then the route of the
   requested state to `http://`. The result splits into exactly those three
   parts; nothing else is appended.
   */
  function GetAddress(config: Config, turnOn: bool): (address: string)
    ensures |address| == |Scheme| + |config.remote.ip| + |Route(config.remote, turnOn)|
    ensures address[..|Scheme|] == Scheme
    ensures address[|Scheme|..|Scheme| + |config.remote.ip|] == config.remote.ip
    ensures address[|Scheme| + |config.remote.ip|..] == Route(config.remote, turnOn)
  {
    Scheme + config.remote.ip + Route(config.remote, turnOn)
  }

  /** The on and off addresses differ exactly when the two routes differ, so
      the relay can tell the two notifications apart. */
  lemma AddressesDistinct(config: Config)
    ensures GetAddress(config, true) == GetAddress(config, false)
            <==> config.remote.routeOn == config.remote.routeOff
  {
  }
}
