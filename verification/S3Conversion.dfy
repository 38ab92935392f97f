/** S3 credentials as DuckDB options and as iceberg-cpp properties: the two ways between, and when they are inverse. */
module S3Conversion {
  import opened Wrappers
  import opened Text

  /** The option names of a DuckDB S3 secret, resolved up to letter case; every other name is unrelated. */
  datatype OptionKey =
    | KeyId | SecretKey | SessionToken | Region | Endpoint | UrlStyle | UseSsl
    | UnrelatedOption(name: string)

  datatype PropertyKey =
    | AccessKeyId | SecretAccessKey | S3SessionToken | S3Region | S3Endpoint | PathStyleAccess | SslEnabled
    | UnrelatedProperty(name: string)

  datatype OptionValue = NullValue | TextValue(text: string) | FlagValue(flag: bool) | NumberValue(number: nat)

  type Secret = map<OptionKey, OptionValue>
  type Properties = map<PropertyKey, string>

  datatype ConversionError = NotABoolean

  /** DuckDB's cast of a string to BOOLEAN; None where it throws. */
  type BoolCast = string -> Option<bool>

  const PLAIN_MAPPINGS: seq<(OptionKey, PropertyKey)> :=
    [(KeyId, AccessKeyId), (SecretKey, SecretAccessKey), (SessionToken, S3SessionToken), (Region, S3Region)]

  const HTTP := "http://"
  const HTTPS := "https://"

  function FlagText(b: bool): string {
    if b then "true" else "false"
  }

  function ParseBool(s: string): Option<bool> {
    if s == "true" then Some(true) else if s == "false" then Some(false) else None
  }

  function ToText(v: OptionValue): string {
    match v
    case NullValue => ""
    case TextValue(s) => s
    case FlagValue(b) => FlagText(b)
    case NumberValue(n) => Decimal(n)
  }

  function ToFlag(v: OptionValue, cast: BoolCast): Option<bool> {
    match v
    case FlagValue(b) => Some(b)
    case NumberValue(n) => Some(n != 0)
    case TextValue(s) => cast(s)
    case NullValue => None
  }

  /** Some(true) for https, Some(false) for http, None for an endpoint with neither in front. */
  function SchemeUsesSsl(endpoint: string): Option<bool> {
    if HTTPS <= endpoint then Some(true) else if HTTP <= endpoint then Some(false) else None
  }

  function StripScheme(endpoint: string): string {
    if HTTPS <= endpoint then endpoint[|HTTPS|..] else if HTTP <= endpoint then endpoint[|HTTP|..] else endpoint
  }

  predicate EndsWithSlash(s: string) {
    s != [] && s[|s| - 1] == '/'
  }

  function StripSlashes(s: string): (r: string)
    ensures !EndsWithSlash(r)
    ensures r <= s && forall i | |r| <= i < |s| :: s[i] == '/'
  {
    if EndsWithSlash(s) then StripSlashes(s[..|s| - 1]) else s
  }

  function DuckDBEndpoint(endpoint: string): string {
    StripSlashes(StripScheme(endpoint))
  }

  /** The scheme an endpoint begins with, if it is http or https. */
  function LeadingScheme(endpoint: string): string {
    if "https://" <= endpoint then "https://" else if "http://" <= endpoint then "http://" else ""
  }

  /** Between the scheme and the trailing slashes, which are all of them, nothing is lost. */
  lemma EndpointExactly(endpoint: string)
    ensures var r := DuckDBEndpoint(endpoint);
            && LeadingScheme(endpoint) + r <= endpoint
            && (forall i | |LeadingScheme(endpoint)| + |r| <= i < |endpoint| :: endpoint[i] == '/')
            && (r != "" ==> r[|r| - 1] != '/')
  {
    var stripped := StripScheme(endpoint);
    assert endpoint == LeadingScheme(endpoint) + stripped;
    assert !EndsWithSlash(StripSlashes(stripped));
  }

  method ToDuckDBEndpoint(endpoint: string) returns (r: string)
    ensures r == DuckDBEndpoint(endpoint)
  {
    r := endpoint;
    if HTTPS <= r {
      r := r[|HTTPS|..];
    } else if HTTP <= r {
      r := r[|HTTP|..];
    }
    while EndsWithSlash(r)
      invariant StripSlashes(r) == DuckDBEndpoint(endpoint)
      decreases |r|
    {
      r := r[..|r| - 1];
    }
  }

  // ----- Secret to properties -----

  function Get(secret: Secret, key: OptionKey): OptionValue {
    if key in secret then secret[key] else NullValue
  }

  function NonEmpty(s: string): Option<string> {
    if s == "" then None else Some(s)
  }

  /** The property each secret becomes; the cast of use_ssl may throw first. */
  function PropertyOf(secret: Secret, key: PropertyKey, cast: BoolCast): Option<string> {
    match key
    case AccessKeyId => NonEmpty(ToText(Get(secret, KeyId)))
    case SecretAccessKey => NonEmpty(ToText(Get(secret, SecretKey)))
    case S3SessionToken => NonEmpty(ToText(Get(secret, SessionToken)))
    case S3Region => NonEmpty(ToText(Get(secret, Region)))
    case S3Endpoint => NonEmpty(ToText(Get(secret, Endpoint)))
    case PathStyleAccess =>
      var style := ToText(Get(secret, UrlStyle));
      if style == "path" then Some("true") else if style == "vhost" then Some("false") else None
    case SslEnabled =>
      (match ToFlag(Get(secret, UseSsl), cast)
       case Some(b) => Some(FlagText(b))
       case None => None)
    case UnrelatedProperty(_) => None
  }

  predicate Throws(secret: Secret, cast: BoolCast) {
    !Get(secret, UseSsl).NullValue? && ToFlag(Get(secret, UseSsl), cast).None?
  }

  const PROPERTY_KEYS: set<PropertyKey> :=
    {AccessKeyId, SecretAccessKey, S3SessionToken, S3Region, S3Endpoint, PathStyleAccess, SslEnabled}

  function ToProperties(secret: Secret, cast: BoolCast): Properties {
    map key | key in PROPERTY_KEYS && PropertyOf(secret, key, cast).Some? :: PropertyOf(secret, key, cast).value
  }

  predicate IsPlainProperty(key: PropertyKey) {
    key == AccessKeyId || key == SecretAccessKey || key == S3SessionToken || key == S3Region
  }

  function PutText(properties: Properties, key: PropertyKey, value: string): Properties {
    if value != "" then properties[key := value] else properties
  }

  function PlainUpTo(secret: Secret, n: nat): Properties
    requires n <= |PLAIN_MAPPINGS|
  {
    if n == 0 then map[]
    else
      PutText(PlainUpTo(secret, n - 1), PLAIN_MAPPINGS[n - 1].1, ToText(Get(secret, PLAIN_MAPPINGS[n - 1].0)))
  }

  lemma PlainPropertiesAgree(secret: Secret, cast: BoolCast)
    ensures var properties := PlainUpTo(secret, |PLAIN_MAPPINGS|);
            forall key :: if IsPlainProperty(key) then Agrees(properties, secret, key, cast) else key !in properties
  {
    var none := PlainUpTo(secret, 0);
    var one := PlainUpTo(secret, 1);
    var two := PlainUpTo(secret, 2);
    assert none == map[];
    assert one == PutText(none, AccessKeyId, ToText(Get(secret, KeyId)));
    assert two == PutText(one, SecretAccessKey, ToText(Get(secret, SecretKey)));
  }

  method ConvertPlainOptions(secret: Secret) returns (properties: Properties)
    ensures properties == PlainUpTo(secret, |PLAIN_MAPPINGS|)
  {
    properties := map[];
    for i := 0 to |PLAIN_MAPPINGS|
      invariant properties == PlainUpTo(secret, i)
    {
      var value := ToText(Get(secret, PLAIN_MAPPINGS[i].0));
      if value != "" {
        properties := properties[PLAIN_MAPPINGS[i].1 := value];
      }
    }
  }

  lemma AgreementIsEquality(properties: Properties, secret: Secret, cast: BoolCast)
    requires forall key :: Agrees(properties, secret, key, cast)
    ensures properties == ToProperties(secret, cast)
  {
    forall key ensures key in properties <==> key in ToProperties(secret, cast) {
      assert Agrees(properties, secret, key, cast);
    }
    forall key | key in properties ensures properties[key] == ToProperties(secret, cast)[key] {
      assert Agrees(properties, secret, key, cast);
    }
  }

  /** The text of an option; empty if it is missing or NULL. */
  function Given(secret: Secret, option: OptionKey): string {
    if option !in secret then ""
    else
      match secret[option]
      case NullValue => ""
      case TextValue(text) => text
      case FlagValue(flag) => if flag then "true" else "false"
      case NumberValue(n) => Decimal(n)
  }

  /** A property holds the option's text, and is absent without one. */
  predicate CarriesOption(secret: Secret, option: OptionKey, properties: Properties, key: PropertyKey) {
    && (key in properties <==> Given(secret, option) != "")
    && (key in properties ==> properties[key] == Given(secret, option))
  }

  predicate CarriesUrlStyle(secret: Secret, properties: Properties) {
    match Given(secret, UrlStyle)
    case "path" => PathStyleAccess in properties && properties[PathStyleAccess] == "true"
    case "vhost" => PathStyleAccess in properties && properties[PathStyleAccess] == "false"
    case _ => PathStyleAccess !in properties
  }

  predicate CarriesSsl(secret: Secret, cast: BoolCast, properties: Properties) {
    && (SslEnabled in properties <==> UseSsl in secret && !secret[UseSsl].NullValue?)
    && (SslEnabled in properties ==>
          properties[SslEnabled] ==
          (match secret[UseSsl]
           case FlagValue(flag) => if flag then "true" else "false"
           case NumberValue(n) => if n == 0 then "false" else "true"
           case TextValue(text) => if cast(text) == Some(true) then "true" else "false"
           case NullValue => ""))
  }

  /** What each property is, option by option. */
  predicate PropertiesOfSecret(secret: Secret, cast: BoolCast, properties: Properties) {
    && CarriesOption(secret, KeyId, properties, AccessKeyId)
    && CarriesOption(secret, SecretKey, properties, SecretAccessKey)
    && CarriesOption(secret, SessionToken, properties, S3SessionToken)
    && CarriesOption(secret, Region, properties, S3Region)
    && CarriesOption(secret, Endpoint, properties, S3Endpoint)
    && CarriesUrlStyle(secret, properties)
    && CarriesSsl(secret, cast, properties)
    && (forall key | key in properties :: !key.UnrelatedProperty? && properties[key] != "")
  }

  lemma ThrowsExactly(secret: Secret, cast: BoolCast)
    ensures Throws(secret, cast) <==> UseSsl in secret && secret[UseSsl].TextValue? && cast(secret[UseSsl].text).None?
  {
  }

  lemma GivenIsText(secret: Secret, option: OptionKey)
    ensures ToText(Get(secret, option)) == Given(secret, option)
  {
  }

  lemma SslExactly(secret: Secret, cast: BoolCast)
    requires !Throws(secret, cast)
    ensures CarriesSsl(secret, cast, ToProperties(secret, cast))
  {
  }

  lemma PropertiesExactly(secret: Secret, cast: BoolCast)
    requires !Throws(secret, cast)
    ensures PropertiesOfSecret(secret, cast, ToProperties(secret, cast))
  {
    var properties := ToProperties(secret, cast);
    GivenIsText(secret, KeyId);
    GivenIsText(secret, SecretKey);
    GivenIsText(secret, SessionToken);
    GivenIsText(secret, Region);
    GivenIsText(secret, Endpoint);
    GivenIsText(secret, UrlStyle);
    SslExactly(secret, cast);
    forall key | key in properties ensures !key.UnrelatedProperty? && properties[key] != "" {
    }
  }

  method ConvertS3SecretToIcebergProperties(secret: Secret, cast: BoolCast)
    returns (r: Result<Properties, ConversionError>)
    ensures r == if Throws(secret, cast) then Threw(NotABoolean) else Ok(ToProperties(secret, cast))
    ensures if UseSsl in secret && secret[UseSsl].TextValue? && cast(secret[UseSsl].text).None?
            then r == Threw(NotABoolean) else r.Ok? && PropertiesOfSecret(secret, cast, r.value)
  {
    ThrowsExactly(secret, cast);
    var properties := ConvertPlainOptions(secret);
    PlainPropertiesAgree(secret, cast);
    var style := ToText(Get(secret, UrlStyle));
    if style == "path" {
      properties := properties[PathStyleAccess := "true"];
    } else if style == "vhost" {
      properties := properties[PathStyleAccess := "false"];
    }
    var endpoint := ToText(Get(secret, Endpoint));
    if endpoint != "" {
      properties := properties[S3Endpoint := endpoint];
    }
    var useSsl := Get(secret, UseSsl);
    if !useSsl.NullValue? {
      var flag := ToFlag(useSsl, cast);
      if flag.None? {
        return Threw(NotABoolean);
      }
      properties := properties[SslEnabled := FlagText(flag.value)];
    }
    AgreementIsEquality(properties, secret, cast);
    PropertiesExactly(secret, cast);
    r := Ok(properties);
  }

  predicate Agrees(properties: Properties, secret: Secret, key: PropertyKey, cast: BoolCast) {
    PropertyOf(secret, key, cast) == if key in properties then Some(properties[key]) else None
  }

  // ----- Properties to secret -----

  function Property(properties: Properties, key: PropertyKey): string {
    if key in properties then properties[key] else ""
  }

  function UseSslOf(properties: Properties): Option<bool> {
    match SchemeUsesSsl(Property(properties, S3Endpoint))
    case Some(b) => Some(b)
    case None => ParseBool(Property(properties, SslEnabled))
  }

  function AsText(s: string): Option<OptionValue> {
    if s == "" then None else Some(TextValue(s))
  }

  function OptionOf(properties: Properties, key: OptionKey): Option<OptionValue> {
    match key
    case KeyId => AsText(Property(properties, AccessKeyId))
    case SecretKey => AsText(Property(properties, SecretAccessKey))
    case SessionToken => AsText(Property(properties, S3SessionToken))
    case Region => AsText(Property(properties, S3Region))
    case Endpoint => AsText(DuckDBEndpoint(Property(properties, S3Endpoint)))
    case UrlStyle =>
      (match ParseBool(Property(properties, PathStyleAccess))
       case Some(pathStyle) => Some(TextValue(if pathStyle then "path" else "vhost"))
       case None => None)
    case UseSsl =>
      (match UseSslOf(properties)
       case Some(b) => Some(FlagValue(b))
       case None => None)
    case UnrelatedOption(_) => None
  }

  const OPTION_KEYS: set<OptionKey> := {KeyId, SecretKey, SessionToken, Region, Endpoint, UrlStyle, UseSsl}

  function ToSecret(properties: Properties): Secret {
    map key | key in OPTION_KEYS && OptionOf(properties, key).Some? :: OptionOf(properties, key).value
  }

  predicate Matches(options: Secret, properties: Properties, key: OptionKey) {
    OptionOf(properties, key) == if key in options then Some(options[key]) else None
  }

  predicate IsPlainOption(key: OptionKey) {
    key == KeyId || key == SecretKey || key == SessionToken || key == Region
  }

  function PutOption(options: Secret, key: OptionKey, value: string): Secret {
    if value != "" then options[key := TextValue(value)] else options
  }

  function PlainOptionsUpTo(properties: Properties, n: nat): Secret
    requires n <= |PLAIN_MAPPINGS|
  {
    if n == 0 then map[]
    else
      PutOption(PlainOptionsUpTo(properties, n - 1), PLAIN_MAPPINGS[n - 1].0,
                Property(properties, PLAIN_MAPPINGS[n - 1].1))
  }

  lemma PlainOptionsMatch(properties: Properties)
    ensures var options := PlainOptionsUpTo(properties, |PLAIN_MAPPINGS|);
            forall key :: if IsPlainOption(key) then Matches(options, properties, key) else key !in options
  {
    var none := PlainOptionsUpTo(properties, 0);
    var one := PlainOptionsUpTo(properties, 1);
    var two := PlainOptionsUpTo(properties, 2);
    assert none == map[];
    assert one == PutOption(none, KeyId, Property(properties, AccessKeyId));
    assert two == PutOption(one, SecretKey, Property(properties, SecretAccessKey));
  }

  method ConvertPlainProperties(properties: Properties) returns (options: Secret)
    ensures options == PlainOptionsUpTo(properties, |PLAIN_MAPPINGS|)
  {
    options := map[];
    for i := 0 to |PLAIN_MAPPINGS|
      invariant options == PlainOptionsUpTo(properties, i)
    {
      var value := Property(properties, PLAIN_MAPPINGS[i].1);
      if value != "" {
        options := options[PLAIN_MAPPINGS[i].0 := TextValue(value)];
      }
    }
  }

  lemma MatchingIsEquality(options: Secret, properties: Properties)
    requires forall key :: Matches(options, properties, key)
    ensures options == ToSecret(properties)
  {
    forall key ensures key in options <==> key in ToSecret(properties) {
      assert Matches(options, properties, key);
    }
    forall key | key in options ensures options[key] == ToSecret(properties)[key] {
      assert Matches(options, properties, key);
    }
  }

  function WithOption(options: Secret, key: OptionKey, value: Option<OptionValue>): Secret {
    if value.Some? then options[key := value.value] else options
  }

  lemma OptionsAssembled(properties: Properties)
    ensures var plain := PlainOptionsUpTo(properties, |PLAIN_MAPPINGS|);
            var styled := WithOption(plain, UrlStyle, OptionOf(properties, UrlStyle));
            var placed := WithOption(styled, Endpoint, OptionOf(properties, Endpoint));
            WithOption(placed, UseSsl, OptionOf(properties, UseSsl)) == ToSecret(properties)
  {
    var plain := PlainOptionsUpTo(properties, |PLAIN_MAPPINGS|);
    PlainOptionsMatch(properties);
    var styled := WithOption(plain, UrlStyle, OptionOf(properties, UrlStyle));
    var placed := WithOption(styled, Endpoint, OptionOf(properties, Endpoint));
    var options := WithOption(placed, UseSsl, OptionOf(properties, UseSsl));
    forall key ensures Matches(options, properties, key) {
      assert if IsPlainOption(key) then Matches(plain, properties, key) else key !in plain;
    }
    MatchingIsEquality(options, properties);
  }

  /** An option holds the property's text, and is absent without one. */
  predicate CarriesProperty(properties: Properties, key: PropertyKey, secret: Secret, option: OptionKey) {
    && (option in secret <==> key in properties && properties[key] != "")
    && (option in secret ==> secret[option] == TextValue(properties[key]))
  }

  /** The property is there, with this very text. */
  predicate Says(properties: Properties, key: PropertyKey, text: string) {
    key in properties && properties[key] == text
  }

  predicate CarriesPathStyle(properties: Properties, secret: Secret) {
    && (UrlStyle in secret <==>
          Says(properties, PathStyleAccess, "true") || Says(properties, PathStyleAccess, "false"))
    && (UrlStyle in secret ==>
          secret[UrlStyle] == TextValue(if Says(properties, PathStyleAccess, "true") then "path" else "vhost"))
  }

  /** The endpoint's scheme goes before the SSL property. */
  predicate CarriesScheme(properties: Properties, endpoint: string, secret: Secret) {
    && (Endpoint in secret <==> DuckDBEndpoint(endpoint) != "")
    && (Endpoint in secret ==> secret[Endpoint] == TextValue(DuckDBEndpoint(endpoint)))
    && (UseSsl in secret <==>
          || LeadingScheme(endpoint) != ""
          || Says(properties, SslEnabled, "true") || Says(properties, SslEnabled, "false"))
    && (UseSsl in secret ==>
          secret[UseSsl] == FlagValue(if LeadingScheme(endpoint) != "" then LeadingScheme(endpoint) == "https://"
                                      else Says(properties, SslEnabled, "true")))
  }

  /** What each option is, property by property. */
  predicate SecretOfProperties(properties: Properties, secret: Secret) {
    && CarriesProperty(properties, AccessKeyId, secret, KeyId)
    && CarriesProperty(properties, SecretAccessKey, secret, SecretKey)
    && CarriesProperty(properties, S3SessionToken, secret, SessionToken)
    && CarriesProperty(properties, S3Region, secret, Region)
    && CarriesPathStyle(properties, secret)
    && CarriesScheme(properties, if S3Endpoint in properties then properties[S3Endpoint] else "", secret)
    && (forall option | option in secret :: !option.UnrelatedOption?)
  }

  lemma PathStyleExactly(properties: Properties)
    ensures CarriesPathStyle(properties, ToSecret(properties))
  {
  }

  lemma SchemeExactly(properties: Properties)
    ensures CarriesScheme(properties, if S3Endpoint in properties then properties[S3Endpoint] else "",
                          ToSecret(properties))
  {
    var endpoint := if S3Endpoint in properties then properties[S3Endpoint] else "";
    assert SchemeUsesSsl(endpoint) ==
        if LeadingScheme(endpoint) == "" then None else Some(LeadingScheme(endpoint) == "https://");
  }

  lemma SecretExactly(properties: Properties, secret: Secret)
    requires secret == ToSecret(properties)
    ensures SecretOfProperties(properties, secret)
  {
    PathStyleExactly(properties);
    SchemeExactly(properties);
  }

  method ConvertIcebergPropertiesToS3Secret(properties: Properties) returns (options: Secret)
    ensures options == ToSecret(properties)
    ensures SecretOfProperties(properties, options)
  {
    options := ConvertPlainProperties(properties);
    var pathStyle := ParseBool(Property(properties, PathStyleAccess));
    if pathStyle.Some? {
      options := options[UrlStyle := TextValue(if pathStyle.value then "path" else "vhost")];
    }
    var duckdbEndpoint := ToDuckDBEndpoint(Property(properties, S3Endpoint));
    if duckdbEndpoint != "" {
      options := options[Endpoint := TextValue(duckdbEndpoint)];
    }
    var useSsl := UseSslOf(properties);
    if useSsl.Some? {
      options := options[UseSsl := FlagValue(useSsl.value)];
    }
    OptionsAssembled(properties);
    SecretExactly(properties, options);
  }

  // ----- Round trips -----

  predicate HasScheme(endpoint: string) {
    HTTPS <= endpoint || HTTP <= endpoint
  }

  predicate CanonicalEntry(key: OptionKey, value: OptionValue) {
    match key
    case UnrelatedOption(_) => false
    case UseSsl => value.FlagValue?
    case UrlStyle => value == TextValue("path") || value == TextValue("vhost")
    case Endpoint => value.TextValue? && value.text != "" && !HasScheme(value.text) && !EndsWithSlash(value.text)
    case _ => value.TextValue? && value.text != ""
  }

  /** Only known keys, each with a value DuckDB's own conversion would have written. */
  predicate Canonical(secret: Secret) {
    forall key | key in secret :: CanonicalEntry(key, secret[key])
  }

  function RoundTrip(secret: Secret, cast: BoolCast): Result<Secret, ConversionError> {
    if Throws(secret, cast) then Threw(NotABoolean) else Ok(ToSecret(ToProperties(secret, cast)))
  }

  lemma RoundTripEntry(secret: Secret, cast: BoolCast, key: OptionKey)
    requires !Throws(secret, cast)
    requires key in secret
    requires CanonicalEntry(key, secret[key])
    requires Endpoint in secret ==> CanonicalEntry(Endpoint, secret[Endpoint])
    ensures OptionOf(ToProperties(secret, cast), key) == Some(secret[key])
  {
  }

  lemma RoundTripAbsent(secret: Secret, cast: BoolCast, key: OptionKey)
    requires Canonical(secret)
    requires key !in secret
    ensures OptionOf(ToProperties(secret, cast), key).None?
  {
  }

  lemma RoundTripForces(secret: Secret, cast: BoolCast, key: OptionKey)
    requires RoundTrip(secret, cast) == Ok(secret)
    requires key in secret
    ensures CanonicalEntry(key, secret[key])
  {
  }

  /** A secret survives the trip through iceberg-cpp properties exactly when it is canonical. */
  lemma RoundTripExactly(secret: Secret, cast: BoolCast)
    ensures RoundTrip(secret, cast) == Ok(secret) <==> Canonical(secret)
  {
    if Canonical(secret) {
      var properties := ToProperties(secret, cast);
      forall key ensures OptionOf(properties, key) == if key in secret then Some(secret[key]) else None {
        if key in secret {
          RoundTripEntry(secret, cast, key);
        } else {
          RoundTripAbsent(secret, cast, key);
        }
      }
      assert ToSecret(properties) == secret by {
        forall key ensures key in ToSecret(properties) <==> key in secret {
        }
      }
    }
    if RoundTrip(secret, cast) == Ok(secret) {
      forall key | key in secret ensures CanonicalEntry(key, secret[key]) {
        RoundTripForces(secret, cast, key);
      }
    }
  }

  /** Properties give a canonical secret exactly when the endpoint, stripped once, has no scheme left. */
  lemma ToSecretCanonicalExactly(properties: Properties)
    ensures Canonical(ToSecret(properties)) <==> !HasScheme(DuckDBEndpoint(Property(properties, S3Endpoint)))
  {
    var secret := ToSecret(properties);
    var endpoint := DuckDBEndpoint(Property(properties, S3Endpoint));
    assert HasScheme(endpoint) ==> endpoint != "";
    assert Endpoint in secret <==> endpoint != "";
    if !HasScheme(endpoint) {
      forall key | key in secret ensures CanonicalEntry(key, secret[key]) {
      }
    }
  }

  /** Converting properties, then back and forth again, is stable exactly when one strip left no scheme. */
  lemma ConversionStableExactly(properties: Properties, cast: BoolCast)
    ensures RoundTrip(ToSecret(properties), cast) == Ok(ToSecret(properties)) <==>
            !HasScheme(DuckDBEndpoint(Property(properties, S3Endpoint)))
  {
    RoundTripExactly(ToSecret(properties), cast);
    ToSecretCanonicalExactly(properties);
  }

  /** Properties whose conversion is not stable: their endpoint carries two schemes. */
  lemma TwoSchemesNotStable(cast: BoolCast)
    ensures var properties := map[S3Endpoint := "http://https://h"];
            RoundTrip(ToSecret(properties), cast) != Ok(ToSecret(properties))
  {
    var properties: Properties := map[S3Endpoint := "http://https://h"];
    var endpoint := Property(properties, S3Endpoint);
    assert endpoint[4] != HTTPS[4];
    assert StripScheme(endpoint) == endpoint[|HTTP|..] == "https://h";
    assert !EndsWithSlash("https://h");
    ConversionStableExactly(properties, cast);
  }

  // ----- Endpoint meaning -----

  function Scheme(useSsl: bool): string {
    if useSsl then HTTPS else HTTP
  }

  /** httpfs: the scheme comes from use_ssl. */
  function DuckDBUrl(useSsl: bool, endpoint: string): string {
    Scheme(useSsl) + endpoint
  }

  /** iceberg-cpp: an endpoint with a scheme is used verbatim, else s3.ssl.enabled selects one. */
  function IcebergUrl(endpoint: string, sslEnabled: bool): string {
    if HasScheme(endpoint) then endpoint else Scheme(sslEnabled) + endpoint
  }

  lemma {:induction false} StripAfter(prefix: string, s: string)
    requires StripSlashes(s) != ""
    ensures StripSlashes(prefix + s) == prefix + StripSlashes(s)
    decreases |s|
  {
    if EndsWithSlash(s) {
      StripAfter(prefix, s[..|s| - 1]);
      assert (prefix + s)[..|prefix + s| - 1] == prefix + s[..|s| - 1];
    }
  }

  lemma SchemeIsVerbatim(endpoint: string, sslEnabled: bool, useSsl: bool)
    requires SchemeUsesSsl(endpoint) == Some(useSsl) || (!HasScheme(endpoint) && useSsl == sslEnabled)
    ensures IcebergUrl(endpoint, sslEnabled) == Scheme(useSsl) + StripScheme(endpoint)
  {
  }

  /** DuckDB reaches the URL iceberg-cpp would, up to trailing slashes, whenever the endpoint has a host part and either
      it or s3.ssl.enabled settles the scheme. */
  lemma EndpointMeaningPreserved(properties: Properties, sslEnabled: bool)
    requires var endpoint := Property(properties, S3Endpoint);
             && DuckDBEndpoint(endpoint) != ""
             && (HasScheme(endpoint) || ParseBool(Property(properties, SslEnabled)) == Some(sslEnabled))
    ensures var secret := ToSecret(properties);
            && Endpoint in secret && secret[Endpoint].TextValue?
            && UseSsl in secret && secret[UseSsl].FlagValue?
            && DuckDBUrl(secret[UseSsl].flag, secret[Endpoint].text)
               == StripSlashes(IcebergUrl(Property(properties, S3Endpoint), sslEnabled))
  {
    var endpoint := Property(properties, S3Endpoint);
    var useSsl := UseSslOf(properties).value;
    SchemeIsVerbatim(endpoint, sslEnabled, useSsl);
    StripAfter(Scheme(useSsl), StripScheme(endpoint));
  }
}
