/**
 * Application settings: the default values other components depend on,
 * and the two derived properties `is_production` and `cors_origins`.
 */
module Config {
  import opened PyText

  /** The settings fields the core reads; loading them from the environment is not modelled. */
  datatype Settings = Settings(
    appEnv: string,
    allowedOrigins: string,
    topKResults: int,
    chunkSize: int,
    chunkOverlap: int)

  const DefaultAllowedOrigins: string := "http://localhost:3000,http://localhost:8000"

  /** Every field at its declared default. */
  const Defaults: Settings := Settings("development", DefaultAllowedOrigins, 5, 1000, 200)

  /** `is_production`: the environment name equals "production" ignoring case. */
  predicate IsProduction(s: Settings) {
    Lower(s.appEnv) == "production"
  }

  /** The comparison in `is_production` does not see letter case. */
  lemma IsProductionIgnoresCase(s: Settings, t: Settings)
    requires |s.appEnv| == |t.appEnv|
    requires forall i :: 0 <= i < |s.appEnv| ==> LowerChar(s.appEnv[i]) == LowerChar(t.appEnv[i])
    ensures IsProduction(s) <==> IsProduction(t)
  {
    assert Lower(s.appEnv) == Lower(t.appEnv);
  }

  /** "PRODUCTION" is production and the default "development" is not. */
  lemma IsProductionExamples()
    ensures IsProduction(Defaults.(appEnv := "PRODUCTION"))
    ensures IsProduction(Defaults.(appEnv := "Production"))
    ensures !IsProduction(Defaults)
  {
    assert Lower("PRODUCTION") == "production";
    assert Lower("Production") == "production";
    assert Lower("development")[0] == 'd';
  }

  /** `cors_origins`: the comma-separated pieces of `allowed_origins`, each stripped. */
  function CorsOrigins(s: Settings): (r: seq<string>)
    ensures |r| == Count(s.allowedOrigins, ',') + 1
  {
    var pieces := SplitOn(s.allowedOrigins, ',');
    seq(|pieces|, k requires 0 <= k < |pieces| => Strip(pieces[k]))
  }

  /** Each origin is the corresponding piece of the setting, stripped, in the same order; none holds a comma. */
  lemma CorsOriginsPieces(s: Settings, k: nat)
    requires k < |SplitOn(s.allowedOrigins, ',')|
    ensures CorsOrigins(s)[k] == Strip(SplitOn(s.allowedOrigins, ',')[k])
    ensures ',' !in CorsOrigins(s)[k]
  {
    if ',' in CorsOrigins(s)[k] {
      StripChars(SplitOn(s.allowedOrigins, ',')[k], ',');
    }
  }

  /** A setting without commas gives exactly one origin, `[""]` for the empty string. */
  lemma CorsOriginsSingle(s: Settings)
    requires ',' !in s.allowedOrigins
    ensures CorsOrigins(s) == [Strip(s.allowedOrigins)]
  {
    SplitOnJoin([s.allowedOrigins], ',');
  }

  /** Origins written as trimmed, comma-free pieces joined by commas come back as those pieces. */
  lemma CorsOriginsOfJoin(s: Settings, parts: seq<string>)
    requires |parts| >= 1 && s.allowedOrigins == Join(parts, [','])
    requires forall k :: 0 <= k < |parts| ==> ',' !in parts[k] && Trimmed(parts[k])
    ensures CorsOrigins(s) == parts
  {
    SplitOnJoin(parts, ',');
    var r := CorsOrigins(s);
    forall k | 0 <= k < |parts| ensures r[k] == parts[k] {
      CorsOriginsPieces(s, k);
      StripTrimmed(parts[k]);
    }
  }

  const DefaultOrigins: seq<string> := ["http://localhost:3000", "http://localhost:8000"]

  /** The default setting is the two default origins joined by a comma. */
  lemma DefaultOriginsJoined()
    ensures Join(DefaultOrigins, [',']) == DefaultAllowedOrigins
  {
    assert DefaultOrigins[1..] == [DefaultOrigins[1]];
  }

  /** Neither default origin holds a comma or surrounding whitespace. */
  lemma DefaultOriginsClean()
    ensures forall k :: 0 <= k < |DefaultOrigins| ==> ',' !in DefaultOrigins[k] && Trimmed(DefaultOrigins[k])
  {
    assert ',' !in DefaultOrigins[0] && Trimmed(DefaultOrigins[0]);
    assert ',' !in DefaultOrigins[1] && Trimmed(DefaultOrigins[1]);
  }

  /** The default origins are the two local development servers. */
  lemma DefaultCorsOrigins()
    ensures CorsOrigins(Defaults) == DefaultOrigins
  {
    DefaultOriginsJoined();
    DefaultOriginsClean();
    CorsOriginsOfJoin(Defaults, DefaultOrigins);
  }

  /** The default overlap is smaller than the default chunk size, as the splitter's raw cut needs. */
  lemma DefaultChunking()
    ensures 0 <= Defaults.chunkOverlap < Defaults.chunkSize
    ensures Defaults.topKResults == 5
  {
  }
}
