/** Quota configuration: the limits as loaded from the configuration file, their
    conversion to byte counts (`read_config`), and the lookup with its
    fallback limit (`get_raw_data`). */
module Quota {
  import opened Basics
  import opened Numerals
  import opened Units

  /** A limit as the configuration file writes it. */
  datatype LimitLoad = LimitLoad(resetDay: u8, limit: string)

  datatype ConfigLoads = ConfigLoads(prometheusUrl: string, unitType: UnitType, limits: map<string, LimitLoad>)

  /** A limit with its quota in bytes. */
  datatype Limit = Limit(resetDay: u8, limit: u64)

  datatype Config = Config(prometheusUrl: string, unitType: UnitType, limits: map<string, Limit>)

  /** `byte_conversion(s, u).unwrap()`: the byte count, or a panic, including
      the panic of unwrapping the `None` of an unknown unit. */
  function ConvertUnwrap(s: string, u: UnitType): (r: Outcome<u64>)
    ensures r.Ok? <==> Convert(s, u).Ok? && Convert(s, u).value.Some?
    ensures r.Ok? ==> Convert(s, u) == Ok(Some(r.value))
    ensures Convert(s, u) == Ok(None) ==> r == Panic(UnknownUnit)
  {
    match Convert(s, u)
    case Panic(e) => Panic(e)
    case Ok(None) => Panic(UnknownUnit)
    case Ok(Some(n)) => Ok(n)
  }

  /** The limit map of `read_config`: every key kept, every reset day copied,
      every quota string converted; one quota that does not convert aborts
      the load (which entry's panic surfaces depends on hash-map order, so
      the reason is reported as `InvalidQuota`). */
  function ConvertLimits(loads: map<string, LimitLoad>, u: UnitType): (r: Outcome<map<string, Limit>>)
    ensures r.Ok? <==> forall k :: k in loads ==> ConvertUnwrap(loads[k].limit, u).Ok?
    ensures r.Ok? ==> r.value.Keys == loads.Keys
    ensures r.Ok? ==> forall k :: k in r.value ==>
              r.value[k].resetDay == loads[k].resetDay &&
              Convert(loads[k].limit, u) == Ok(Some(r.value[k].limit))
  {
    if forall k :: k in loads ==> ConvertUnwrap(loads[k].limit, u).Ok? then
      Ok(map k | k in loads :: Limit(loads[k].resetDay, ConvertUnwrap(loads[k].limit, u).value))
    else
      Panic(InvalidQuota)
  }

  /** `read_config` after the file has been read and deserialised: the URL and
      the unit convention pass through, the limits are converted. */
  function ReadConfig(loads: ConfigLoads): (r: Outcome<Config>)
    ensures r.Ok? <==> ConvertLimits(loads.limits, loads.unitType).Ok?
    ensures r.Ok? ==> r.value.prometheusUrl == loads.prometheusUrl &&
                      r.value.unitType == loads.unitType &&
                      r.value.limits == ConvertLimits(loads.limits, loads.unitType).value
  {
    match ConvertLimits(loads.limits, loads.unitType)
    case Panic(e) => Panic(e)
    case Ok(limits) => Ok(Config(loads.prometheusUrl, loads.unitType, limits))
  }

  /** One terabyte in the convention: base^4 bytes. */
  function Terabyte(u: UnitType): (t: nat)
    ensures t == Pow(Base(u), 4)
  {
    assert Pow(1000, 4) == 1_000_000_000_000;
    assert Pow(1024, 4) == 1_099_511_627_776;
    match u
    case Decimal => 1_000_000_000_000
    case Binary => 1_099_511_627_776
  }

  /** The quota string of the fallback limit converts under both conventions. */
  lemma FallbackConverts(u: UnitType)
    ensures Convert("9999tb", u) == Ok(Some(9999 * Terabyte(u)))
  {
    ConvertSpelled(9999, 4, false, u);
    assert Show(9999) == "9999";
    assert Show(9999) + LowerUnits[4] == "9999tb";
  }

  /** The limit of an instance with no configured entry: reset on the first,
      quota 9999 terabytes in the configured convention (the source obtains
      it as `byte_conversion("9999tb").unwrap()`, see `FallbackConverts`). */
  function FallbackLimit(u: UnitType): (r: Limit)
    ensures r.resetDay == 1
    ensures r.limit == 9999 * Terabyte(u)
  {
    Limit(1, 9999 * Terabyte(u))
  }

  /** `config.limits.get(instance).unwrap_or(&limit_fallback)`. */
  function ResolveLimit(config: Config, instance: string): (r: Limit)
    ensures instance in config.limits ==> r == config.limits[instance]
    ensures instance !in config.limits ==> r == FallbackLimit(config.unitType)
  {
    if instance in config.limits then config.limits[instance] else FallbackLimit(config.unitType)
  }

  /** The fallback quota is 9999 decimal or binary terabytes. */
  lemma FallbackQuota()
    ensures FallbackLimit(Decimal).limit == 9_999_000_000_000_000
    ensures FallbackLimit(Binary).limit == 10_994_016_766_132_224
  {
  }

  /** The fallback quota exceeds every quota of at most 9998 terabytes under
      the same convention. */
  lemma FallbackExceeds(u: UnitType, n: nat)
    requires n <= 9998
    ensures n * Pow(Base(u), 4) < FallbackLimit(u).limit
  {
    var p := Terabyte(u);
    assert n * p <= 9998 * p;
  }

  /** A configured instance keeps its own limit; every other instance,
      configured or not elsewhere, gets the fallback. */
  lemma ResolveAfterLoad(loads: ConfigLoads, instance: string)
    requires ReadConfig(loads).Ok?
    ensures var config := ReadConfig(loads).value;
            var r := ResolveLimit(config, instance);
            (instance in loads.limits ==>
               r.resetDay == loads.limits[instance].resetDay &&
               Convert(loads.limits[instance].limit, loads.unitType) == Ok(Some(r.limit))) &&
            (instance !in loads.limits ==> r == Limit(1, 9999 * Pow(Base(loads.unitType), 4)))
  {
  }
}
