/** Connection strings of storage accounts: parsing into a settings map, the three ways to read the map,
    and writing an account back as a string. */
module ConnectionString {
  import opened Common
  import opened Strings
  import Base64

  type Settings = map<string, string>

  const USE_DEVELOPMENT_STORAGE := "UseDevelopmentStorage"
  const DEVELOPMENT_STORAGE_PROXY_URI := "DevelopmentStorageProxyUri"
  const DEFAULT_ENDPOINTS_PROTOCOL := "DefaultEndpointsProtocol"
  const ACCOUNT_NAME := "AccountName"
  const ACCOUNT_KEY := "AccountKey"
  const BLOB_ENDPOINT := "BlobEndpoint"
  const QUEUE_ENDPOINT := "QueueEndpoint"
  const TABLE_ENDPOINT := "TableEndpoint"
  const FILE_ENDPOINT := "FileEndpoint"
  const ENDPOINT_SUFFIX := "EndpointSuffix"
  const SHARED_ACCESS_SIGNATURE := "SharedAccessSignature"
  const DEVSTORE_ACCOUNT_NAME := "devstoreaccount1"
  const DEVSTORE_ACCOUNT_KEY :=
    "Eby8vdM02xNOcqFlqUwJPLlmEtlCDXJ1OUzFT50uSRZ6IFsuFq2UVErCz4I6tq/K1SZFPTOtr/KBHBeksoGMGw=="
  const DEFAULT_SUFFIX := "core.windows.net"
  const HIDDEN := "[key hidden]"

  // ---------- strings and settings ----------

  function KeyOf(piece: string): string { piece[..Find(piece, '=', 0)] }

  function ValueOf(piece: string): string {
    var equals := Find(piece, '=', 0);
    if equals == |piece| then "" else piece[equals + 1..]
  }

  /** Empty pieces are skipped, a piece without a key is an error, and of equal keys the first one stays. */
  function SettingsOf(pieces: seq<string>): Option<Settings> {
    if pieces == [] then Some(map[])
    else
      var before, piece := SettingsOf(pieces[..|pieces| - 1]), pieces[|pieces| - 1];
      if before.None? || piece == "" then before
      else if KeyOf(piece) == "" then None
      else if KeyOf(piece) in before.value then before
      else Some(before.value[KeyOf(piece) := ValueOf(piece)])
  }

  /** The piece is a setting of this name: the name alone, or the name, an equals sign and whatever follows. */
  predicate Names(piece: string, key: string) { key != "" && '=' !in key && (piece == key || key + "=" <= piece) }

  predicate Gives(piece: string, key: string, value: string) {
    Names(piece, key) && (piece == key + "=" + value || (piece == key && value == ""))
  }

  lemma PieceIs(piece: string, key: string)
    ensures Names(piece, key) <==> key != "" && KeyOf(piece) == key
    ensures Names(piece, key) ==> Gives(piece, key, ValueOf(piece))
    ensures KeyOf(piece) == "" <==> piece == "" || piece[0] == '='
  {
    var equals := Find(piece, '=', 0);
    assert '=' !in piece[..equals];
    if equals < |piece| {
      assert piece == piece[..equals] + "=" + piece[equals + 1..];
    }
    if key + "=" <= piece && '=' !in key {
      assert piece[|key|] == (key + "=")[|key|];
      assert piece[..|key|] == key;
    }
  }

  /** Exactly a piece that starts with an equals sign makes a string no settings. */
  lemma {:induction false} SettingsIff(pieces: seq<string>)
    ensures SettingsOf(pieces).None? <==> exists i :: 0 <= i < |pieces| && pieces[i] != "" && pieces[i][0] == '='
  {
    hide KeyOf, ValueOf;
    if pieces != [] {
      var init, last := pieces[..|pieces| - 1], pieces[|pieces| - 1];
      SettingsIff(init);
      PieceIs(last, "");
      assert pieces == init + [last];
    }
  }

  /** Of the pieces with one name the first one is the setting. */
  lemma {:induction false} FirstWins(pieces: seq<string>, key: string)
    requires SettingsOf(pieces).Some?
    ensures var m := SettingsOf(pieces).value;
      if key in m then
        exists i | 0 <= i < |pieces| ::
          Gives(pieces[i], key, m[key]) && forall j :: 0 <= j < i ==> !Names(pieces[j], key)
      else forall i :: 0 <= i < |pieces| ==> !Names(pieces[i], key)
  {
    hide KeyOf, ValueOf, Gives, Names;
    if pieces != [] {
      var init, last := pieces[..|pieces| - 1], pieces[|pieces| - 1];
      FirstWins(init, key);
      PieceIs(last, key);
      PieceIs("", key);
      assert pieces == init + [last];
    }
  }

  method ParseStringIntoSettings(s: string) returns (settings: Option<Settings>)
    ensures settings == SettingsOf(Split(s, ';'))
  {
    var pieces := StringSplit(s, ';');
    var m: Settings := map[];
    for i := 0 to |pieces|
      invariant SettingsOf(pieces[..i]) == Some(m)
    {
      hide Find, Split;
      assert pieces[..i + 1][..i] == pieces[..i];
      if pieces[i] != "" {
        var equals := Find(pieces[i], '=', 0);
        var key := pieces[i][..equals];
        if key == "" {
          NoneStays(pieces, i + 1);
          return None;
        }
        var value := "";
        if equals != |pieces[i]| {
          value := pieces[i][equals + 1..];
        }
        if key !in m {
          m := m[key := value];
        }
      }
    }
    assert pieces[..|pieces|] == pieces;
    return Some(m);
  }

  lemma {:induction false} NoneStays(pieces: seq<string>, i: nat)
    requires i <= |pieces| && SettingsOf(pieces[..i]).None?
    ensures SettingsOf(pieces).None?
    decreases |pieces|
  {
    if i < |pieces| {
      assert pieces[..|pieces| - 1][..i] == pieces[..i];
      NoneStays(pieces[..|pieces| - 1], i);
    } else {
      assert pieces[..i] == pieces;
    }
  }

  // ---------- accounts ----------

  /** No key is the empty key: both count as not an account key. */
  datatype Credentials = Credentials(name: string, key: seq<byte>, sas: string) {
    predicate IsSharedKey() { sas == "" && key != [] }
    predicate IsSas() { sas != "" && key == [] }
  }

  const ANONYMOUS := Credentials("", [], "")

  datatype Endpoint =
    | Unset
    | Given(uri: string)
    | Standard(scheme: string, account: string, service: string, suffix: string)
  {
    predicate Valid(isUri: string -> bool) {
      match this
      case Unset => true
      case Given(uri) => isUri(uri)
      case Standard(_, _, _, _) =>
        isUri(Primary()) && isUri(scheme + "://" + account + "-secondary" + "." + service + "." + suffix)
    }

    /** The primary URI as text; a URI is taken to print as it was given. */
    function Primary(): string {
      match this
      case Unset => ""
      case Given(uri) => uri
      case Standard(_, _, _, _) => scheme + "://" + account + "." + service + "." + suffix
    }
  }

  datatype Endpoints =
    | DevStore(proxy: string)
    | Services(blob: Endpoint, queue: Endpoint, table: Endpoint, file: Endpoint)
  {
    predicate Valid(isUri: string -> bool) {
      Services? ==> blob.Valid(isUri) && queue.Valid(isUri) && table.Valid(isUri) && file.Valid(isUri)
    }
  }

  datatype Account = Account(credentials: Credentials, endpoints: Endpoints, suffix: string, settings: Settings)

  /** An exception, the uninitialized account, or an account. */
  datatype Outcome = Throws | NotInitialized | Initialized(account: Account)

  function Get(m: Settings, key: string): string { if key in m then m[key] else "" }

  /** A leading question mark is not part of a SAS token. */
  function Token(sas: string): string { if sas != "" && sas[0] == '?' then sas[1..] else sas }

  /** None where the key is not Base64. */
  function SharedKey(name: string, key: string): Option<Credentials> {
    var bytes := Base64.Decode(key);
    if bytes.None? then None else Some(Credentials(name, bytes.value, ""))
  }

  function GetCredentials(m: Settings): Option<Credentials> {
    var name, key, sas := Get(m, ACCOUNT_NAME), Get(m, ACCOUNT_KEY), Get(m, SHARED_ACCESS_SIGNATURE);
    if name != "" && key != "" && sas == "" then SharedKey(name, key)
    else if name == "" && key == "" && sas != "" then Some(Credentials("", [], Token(sas)))
    else Some(ANONYMOUS)
  }

  function WithoutCredentials(m: Settings): Settings { m - {ACCOUNT_NAME, ACCOUNT_KEY, SHARED_ACCESS_SIGNATURE} }

  function DevCredentials(): Credentials {
    var bytes := Base64.Decode(DEVSTORE_ACCOUNT_KEY);
    Credentials(DEVSTORE_ACCOUNT_NAME, if bytes.Some? then bytes.value else [], "")
  }

  function Build(isUri: string -> bool, credentials: Option<Credentials>, endpoints: Endpoints, suffix: string): Outcome
  {
    if credentials.None? || !endpoints.Valid(isUri) then Throws
    else Initialized(Account(credentials.value, endpoints, suffix, map[]))
  }

  function ParseDevstore(isUri: string -> bool, m: Settings): Outcome {
    if USE_DEVELOPMENT_STORAGE !in m then NotInitialized
    else if m[USE_DEVELOPMENT_STORAGE] != "true" then Throws
    else if DEVELOPMENT_STORAGE_PROXY_URI in m && !isUri(m[DEVELOPMENT_STORAGE_PROXY_URI]) then Throws
    else if m.Keys <= {USE_DEVELOPMENT_STORAGE, DEVELOPMENT_STORAGE_PROXY_URI} then
      Build(isUri, Some(DevCredentials()), DevStore(Get(m, DEVELOPMENT_STORAGE_PROXY_URI)), "")
    else NotInitialized
  }

  function DefaultOr(m: Settings, key: string, service: string, suffix: string): Endpoint {
    var scheme, name := Get(m, DEFAULT_ENDPOINTS_PROTOCOL), Get(m, ACCOUNT_NAME);
    if Get(m, key) == "" then Standard(scheme, name, service, suffix) else Given(Get(m, key))
  }

  function UnsetOr(m: Settings, key: string): Endpoint { if Get(m, key) == "" then Unset else Given(Get(m, key)) }

  /** The three settings the default reading needs, and the ones it knows. */
  predicate DefaultKeys(m: Settings) {
    {DEFAULT_ENDPOINTS_PROTOCOL, ACCOUNT_NAME, ACCOUNT_KEY} <= m.Keys
      <= {DEFAULT_ENDPOINTS_PROTOCOL, ACCOUNT_NAME, ACCOUNT_KEY, ENDPOINT_SUFFIX, BLOB_ENDPOINT, QUEUE_ENDPOINT,
        TABLE_ENDPOINT, FILE_ENDPOINT}
  }

  function DefaultSuffix(m: Settings): string { if ENDPOINT_SUFFIX in m then m[ENDPOINT_SUFFIX] else DEFAULT_SUFFIX }

  function DefaultServices(m: Settings): Endpoints {
    var suffix := DefaultSuffix(m);
    Services(DefaultOr(m, BLOB_ENDPOINT, "blob", suffix), DefaultOr(m, QUEUE_ENDPOINT, "queue", suffix),
             DefaultOr(m, TABLE_ENDPOINT, "table", suffix), DefaultOr(m, FILE_ENDPOINT, "file", suffix))
  }

  /** Default endpoints of an account made from credentials, an endpoint suffix and a choice of scheme. */
  function DefaultEndpoints(name: string, suffix: string, useHttps: bool): Endpoints {
    var s, x := if useHttps then "https" else "http", if suffix == "" then DEFAULT_SUFFIX else suffix;
    Services(Standard(s, name, "blob", x), Standard(s, name, "queue", x), Standard(s, name, "table", x),
      Standard(s, name, "file", x))
  }

  function ParseDefaults(isUri: string -> bool, m: Settings): Outcome {
    if DefaultKeys(m) then
      Build(isUri, SharedKey(Get(m, ACCOUNT_NAME), Get(m, ACCOUNT_KEY)), DefaultServices(m), DefaultSuffix(m))
    else NotInitialized
  }

  predicate ExplicitKeys(m: Settings) {
    m.Keys <= {BLOB_ENDPOINT, QUEUE_ENDPOINT, TABLE_ENDPOINT, FILE_ENDPOINT, ACCOUNT_NAME, ACCOUNT_KEY,
      SHARED_ACCESS_SIGNATURE}
  }

  function ExplicitServices(m: Settings): Endpoints {
    Services(UnsetOr(m, BLOB_ENDPOINT), UnsetOr(m, QUEUE_ENDPOINT), UnsetOr(m, TABLE_ENDPOINT),
      UnsetOr(m, FILE_ENDPOINT))
  }

  function ParseExplicit(isUri: string -> bool, m: Settings): Outcome {
    if GetCredentials(m).None? then Throws
    else if ExplicitKeys(m) && ExplicitServices(m) != Services(Unset, Unset, Unset, Unset) then
      Build(isUri, GetCredentials(m), ExplicitServices(m), "")
    else NotInitialized
  }

  /** The three readings in turn; the one that works also tells what settings the account keeps. */
  function ParseSettings(isUri: string -> bool, m: Settings): Outcome {
    var devstore, defaults, explicit := ParseDevstore(isUri, m), ParseDefaults(isUri, m), ParseExplicit(isUri, m);
    var first :=
      if !devstore.NotInitialized? then devstore else if !defaults.NotInitialized? then defaults else explicit;
    if !first.Initialized? || GetCredentials(m).None? then Throws
    else Initialized(first.account.(settings := WithoutCredentials(m)))
  }

  function Parse(isUri: string -> bool, s: string): Outcome {
    var m := SettingsOf(Split(s, ';'));
    if m.None? then Throws else ParseSettings(isUri, m.value)
  }

  // ---------- writing ----------

  /** An order in which a map is walked through; std::map walks in the order of its keys. */
  ghost predicate Enumerates(keys: seq<string>, m: Settings) {
    && (forall i :: 0 <= i < |keys| ==> keys[i] in m)
    && (forall k :: k in m ==> k in keys)
    && (forall i, j :: 0 <= i < j < |keys| ==> keys[i] != keys[j])
  }

  function CredentialPairs(a: Account, secrets: bool): seq<(string, string)> {
    if a.endpoints.DevStore? then []
    else if a.credentials.IsSharedKey() then
      [(ACCOUNT_NAME, a.credentials.name), (ACCOUNT_KEY, if secrets then Base64.Encode(a.credentials.key) else HIDDEN)]
    else if a.credentials.IsSas() then [(SHARED_ACCESS_SIGNATURE, if secrets then a.credentials.sas else HIDDEN)]
    else []
  }

  function SettingPairs(m: Settings, keys: seq<string>): seq<(string, string)>
    requires forall i :: 0 <= i < |keys| ==> keys[i] in m
  {
    seq(|keys|, i requires 0 <= i < |keys| => (keys[i], m[keys[i]]))
  }

  function Pairs(a: Account, keys: seq<string>, secrets: bool): seq<(string, string)>
    requires forall i :: 0 <= i < |keys| ==> keys[i] in a.settings
  {
    SettingPairs(a.settings, keys) + CredentialPairs(a, secrets)
  }

  function Piece(pair: (string, string)): string { pair.0 + "=" + pair.1 }

  function Pieces(pairs: seq<(string, string)>): seq<string> {
    seq(|pairs|, i requires 0 <= i < |pairs| => Piece(pairs[i]))
  }

  /** The string of an account that has settings. */
  function Render(a: Account, keys: seq<string>, secrets: bool): string
    requires forall i :: 0 <= i < |keys| ==> keys[i] in a.settings
    requires keys != []
  {
    Join(Pieces(Pairs(a, keys, secrets)), ';')
  }

  /** Pairs behind others, each after a semicolon. */
  function Tail(pairs: seq<(string, string)>): string {
    if pairs == [] then "" else Tail(pairs[..|pairs| - 1]) + ";" + Piece(pairs[|pairs| - 1])
  }

  // ---------- from pairs to text to settings ----------

  /** A setting that survives being written: its key is not empty and has no separator, its value no semicolon. */
  predicate Plain(pair: (string, string)) {
    pair.0 != "" && '=' !in pair.0 && ';' !in pair.0 && ';' !in pair.1
  }

  lemma PieceParts(pair: (string, string))
    requires '=' !in pair.0
    ensures KeyOf(Piece(pair)) == pair.0 && ValueOf(Piece(pair)) == pair.1
  {
    var p, n := Piece(pair), |pair.0|;
    var i := Find(p, '=', 0);
    assert p[..n] == pair.0 && p[n] == '=' && p[n + 1..] == pair.1;
    assert forall k :: 0 <= k < i ==> p[k] == p[0..i][k];
    assert forall k :: 0 <= k < n ==> p[k] == pair.0[k];
  }

  ghost predicate Distinct(pairs: seq<(string, string)>) {
    forall i, j :: 0 <= i < j < |pairs| ==> pairs[i].0 != pairs[j].0
  }

  /** The map holds these pairs and nothing else. */
  ghost predicate Holds(m: Settings, pairs: seq<(string, string)>) {
    && (forall i :: 0 <= i < |pairs| ==> pairs[i].0 in m && m[pairs[i].0] == pairs[i].1)
    && (forall k :: k in m ==> exists i :: 0 <= i < |pairs| && pairs[i].0 == k)
  }

  lemma HoldsUnique(a: Settings, b: Settings, pairs: seq<(string, string)>)
    requires Holds(a, pairs) && Holds(b, pairs)
    ensures a == b
  {
    forall k | k in a ensures k in b && a[k] == b[k] {}
    forall k | k in b ensures k in a {}
  }

  lemma HoldsExtend(m: Settings, pairs: seq<(string, string)>)
    requires pairs != [] && Distinct(pairs) && Holds(m, pairs[..|pairs| - 1])
    ensures pairs[|pairs| - 1].0 !in m
    ensures Holds(m[pairs[|pairs| - 1].0 := pairs[|pairs| - 1].1], pairs)
  {
    var n := |pairs| - 1;
    var m' := m[pairs[n].0 := pairs[n].1];
    forall i | 0 <= i < n ensures pairs[i].0 in m && m[pairs[i].0] == pairs[i].1 {
      assert pairs[..n][i] == pairs[i];
    }
    forall k | k in m' ensures exists i :: 0 <= i < |pairs| && pairs[i].0 == k {
      if k in m {
        var i :| 0 <= i < n && pairs[..n][i].0 == k;
        assert pairs[i].0 == k;
      } else {
        assert pairs[n].0 == k;
      }
    }
  }

  lemma Shorter(pairs: seq<(string, string)>)
    requires pairs != []
    ensures var n := |pairs| - 1;
      && |Pieces(pairs)| == n + 1 && Pieces(pairs)[..n] == Pieces(pairs[..n]) && Pieces(pairs)[n] == Piece(pairs[n])
      && (Distinct(pairs) ==> Distinct(pairs[..n]))
      && ((forall i :: 0 <= i < |pairs| ==> Plain(pairs[i])) ==> forall i :: 0 <= i < n ==> Plain(pairs[..n][i]))
  {}

  lemma {:induction false} PiecesRead(pairs: seq<(string, string)>)
    requires Distinct(pairs) && forall i :: 0 <= i < |pairs| ==> Plain(pairs[i])
    ensures var m := SettingsOf(Pieces(pairs)); m.Some? && Holds(m.value, pairs)
  {
    if pairs != [] {
      hide Find, KeyOf, ValueOf, Piece, Plain, Holds, Pieces, Distinct;
      var n := |pairs| - 1;
      Shorter(pairs);
      PiecesRead(pairs[..n]);
      PlainPiece(pairs[n]);
      HoldsExtend(SettingsOf(Pieces(pairs[..n])).value, pairs);
    } else {
      assert Pieces(pairs) == [];
    }
  }

  lemma PlainPiece(pair: (string, string))
    requires Plain(pair)
    ensures Piece(pair) != "" && KeyOf(Piece(pair)) == pair.0 != "" && ValueOf(Piece(pair)) == pair.1
      && ';' !in Piece(pair)
  {
    PieceParts(pair);
  }

  /** Writing pairs and reading them back gives the same map. */
  lemma TextRoundTrip(pairs: seq<(string, string)>)
    requires pairs != [] && Distinct(pairs) && forall i :: 0 <= i < |pairs| ==> Plain(pairs[i])
    ensures var m := SettingsOf(Split(Join(Pieces(pairs), ';'), ';')); m.Some? && Holds(m.value, pairs)
  {
    forall i | 0 <= i < |pairs| ensures ';' !in Pieces(pairs)[i] {
      PlainPiece(pairs[i]);
    }
    SplitJoin(Pieces(pairs), ';');
    PiecesRead(pairs);
  }

  /** Everything parsed from a string can be written again. */
  lemma {:induction false} ParsedIsPlain(pieces: seq<string>)
    requires Free(pieces, ';') && SettingsOf(pieces).Some?
    ensures var m := SettingsOf(pieces).value; forall k :: k in m ==> Plain((k, m[k]))
  {
    if pieces != [] {
      ParsedIsPlain(pieces[..|pieces| - 1]);
      var piece := pieces[|pieces| - 1];
      var i := Find(piece, '=', 0);
      assert piece[0..i] == KeyOf(piece);
    }
  }

  // ---------- reading back what an account writes ----------

  lemma NamesDiffer()
    ensures ACCOUNT_NAME != ACCOUNT_KEY && ACCOUNT_NAME != SHARED_ACCESS_SIGNATURE
      && ACCOUNT_KEY != SHARED_ACCESS_SIGNATURE
    ensures {ACCOUNT_NAME, ACCOUNT_KEY, SHARED_ACCESS_SIGNATURE} !!
      {USE_DEVELOPMENT_STORAGE, DEVELOPMENT_STORAGE_PROXY_URI, DEFAULT_ENDPOINTS_PROTOCOL, ENDPOINT_SUFFIX,
       BLOB_ENDPOINT, QUEUE_ENDPOINT, TABLE_ENDPOINT, FILE_ENDPOINT}
    ensures USE_DEVELOPMENT_STORAGE !in {DEFAULT_ENDPOINTS_PROTOCOL, ENDPOINT_SUFFIX, BLOB_ENDPOINT, QUEUE_ENDPOINT,
      TABLE_ENDPOINT, FILE_ENDPOINT}
    ensures DEFAULT_ENDPOINTS_PROTOCOL !in {DEVELOPMENT_STORAGE_PROXY_URI, BLOB_ENDPOINT, QUEUE_ENDPOINT,
      TABLE_ENDPOINT, FILE_ENDPOINT}
    ensures ENDPOINT_SUFFIX !in {DEFAULT_ENDPOINTS_PROTOCOL, BLOB_ENDPOINT, QUEUE_ENDPOINT, TABLE_ENDPOINT,
      FILE_ENDPOINT}
    ensures BLOB_ENDPOINT !in {QUEUE_ENDPOINT, TABLE_ENDPOINT, FILE_ENDPOINT}
    ensures QUEUE_ENDPOINT !in {TABLE_ENDPOINT, FILE_ENDPOINT} && TABLE_ENDPOINT != FILE_ENDPOINT
    ensures USE_DEVELOPMENT_STORAGE != DEVELOPMENT_STORAGE_PROXY_URI
  {
    assert SHARED_ACCESS_SIGNATURE[0] == 'S' && USE_DEVELOPMENT_STORAGE[0] == 'U';
    assert BLOB_ENDPOINT[0] == 'B' && FILE_ENDPOINT[0] == 'F' && QUEUE_ENDPOINT[0] == 'Q' && TABLE_ENDPOINT[0] == 'T';
  }

  /** The settings that the string of an account stands for. */
  function Exported(a: Account): Settings {
    if a.endpoints.DevStore? then a.settings else WithCredentials(a.settings, a.credentials)
  }

  function WithCredentials(m: Settings, c: Credentials): Settings {
    if c.IsSharedKey() then m[ACCOUNT_NAME := c.name][ACCOUNT_KEY := Base64.Encode(c.key)]
    else if c.IsSas() then m[SHARED_ACCESS_SIGNATURE := c.sas]
    else m
  }

  /** A default-endpoint account needs its name and key back, and a SAS token must not start with a question mark. */
  predicate Exportable(a: Account) {
    a.endpoints.DevStore?
    || ((DEFAULT_ENDPOINTS_PROTOCOL in a.settings ==> a.credentials.key != [])
        && !(a.credentials.sas != "" && a.credentials.sas[0] == '?'))
  }

  /** What an account becomes when it is written and read again. */
  function Reread(a: Account): Outcome {
    if a.endpoints.DevStore? then Initialized(a)
    else if DEFAULT_ENDPOINTS_PROTOCOL in a.settings && a.credentials.key == [] then Throws
    else Initialized(a.(credentials := a.credentials.(sas := Token(a.credentials.sas))))
  }

  lemma RereadIff(a: Account)
    ensures Reread(a) == Initialized(a) <==> Exportable(a)
  {
    hide DEFAULT_ENDPOINTS_PROTOCOL;
    var sas := a.credentials.sas;
    assert Token(sas) == sas <==> !(sas != "" && sas[0] == '?') by {
      assert |Token(sas)| < |sas| || Token(sas) == sas;
    }
  }

  lemma ReparseDevstore(isUri: string -> bool, m: Settings, a: Account)
    requires ParseDevstore(isUri, m).Initialized? && ParseSettings(isUri, m) == Initialized(a)
    ensures Exported(a) == m && a.endpoints.DevStore?
  {
    NamesDiffer();
    hide USE_DEVELOPMENT_STORAGE, DEVELOPMENT_STORAGE_PROXY_URI, ACCOUNT_NAME, ACCOUNT_KEY, SHARED_ACCESS_SIGNATURE;
    assert m - {ACCOUNT_NAME, ACCOUNT_KEY, SHARED_ACCESS_SIGNATURE} == m;
  }

  /** What the default reading makes of a map. */
  lemma DefaultsRead(isUri: string -> bool, m: Settings, credentials: Credentials)
    requires USE_DEVELOPMENT_STORAGE !in m
    requires ParseDefaults(isUri, m).Initialized? || DefaultServices(m).Valid(isUri)
    requires DefaultKeys(m) && SharedKey(Get(m, ACCOUNT_NAME), Get(m, ACCOUNT_KEY)) == Some(credentials)
    ensures DefaultServices(m).Valid(isUri)
    ensures ParseSettings(isUri, m)
      == Initialized(Account(credentials, DefaultServices(m), DefaultSuffix(m), WithoutCredentials(m)))
  {
    hide Endpoints.Valid, DevCredentials, DefaultOr, Base64.Decode;
    hide USE_DEVELOPMENT_STORAGE, DEVELOPMENT_STORAGE_PROXY_URI, DEFAULT_ENDPOINTS_PROTOCOL, ENDPOINT_SUFFIX,
         ACCOUNT_NAME, ACCOUNT_KEY,
         SHARED_ACCESS_SIGNATURE, BLOB_ENDPOINT, QUEUE_ENDPOINT, TABLE_ENDPOINT, FILE_ENDPOINT, DEFAULT_SUFFIX;
  }

  /** Without an account name nobody reads a protocol. */
  lemma ProtocolNeedsName(isUri: string -> bool, m: Settings)
    requires USE_DEVELOPMENT_STORAGE !in m && DEFAULT_ENDPOINTS_PROTOCOL in m && ACCOUNT_NAME !in m
    ensures ParseSettings(isUri, m).Throws?
  {
    NamesDiffer();
  }

  lemma ReparseDefaults(isUri: string -> bool, m: Settings, a: Account)
    requires ParseDevstore(isUri, m).NotInitialized? && ParseDefaults(isUri, m).Initialized?
    requires ParseSettings(isUri, m) == Initialized(a)
    ensures ParseSettings(isUri, Exported(a)) == Reread(a)
  {
    NamesDiffer();
    hide DefaultOr, DefaultSuffix, DevCredentials, Endpoints.Valid;
    hide USE_DEVELOPMENT_STORAGE, DEVELOPMENT_STORAGE_PROXY_URI, DEFAULT_ENDPOINTS_PROTOCOL, ENDPOINT_SUFFIX,
         ACCOUNT_NAME, ACCOUNT_KEY,
         SHARED_ACCESS_SIGNATURE, BLOB_ENDPOINT, QUEUE_ENDPOINT, TABLE_ENDPOINT, FILE_ENDPOINT, DEFAULT_SUFFIX;
    var e, key := Exported(a), a.credentials.key;
    Base64.DecodeEncode(key);
    hide Base64.Decode, Base64.Encode;
    assert USE_DEVELOPMENT_STORAGE !in m;
    DefaultsRead(isUri, m, a.credentials);
    hide ParseSettings, ParseDevstore, ParseDefaults, ParseExplicit;
    if key != [] {
      assert e == m[ACCOUNT_KEY := Base64.Encode(key)];
      assert WithoutCredentials(e) == a.settings;
      SameDefaults(m, e);
      DefaultsRead(isUri, e, a.credentials);
    } else {
      ProtocolNeedsName(isUri, e);
    }
  }

  /** The key has no part in the endpoints. */
  lemma SameDefaults(m: Settings, e: Settings)
    requires forall k :: k != ACCOUNT_KEY ==> (k in e <==> k in m) && Get(e, k) == Get(m, k)
    ensures DefaultServices(e) == DefaultServices(m) && DefaultSuffix(e) == DefaultSuffix(m)
  {
    NamesDiffer();
    hide ACCOUNT_KEY, ENDPOINT_SUFFIX, BLOB_ENDPOINT, QUEUE_ENDPOINT, TABLE_ENDPOINT, FILE_ENDPOINT,
         DEFAULT_ENDPOINTS_PROTOCOL, ACCOUNT_NAME;
    assert ENDPOINT_SUFFIX in m ==>
      m[ENDPOINT_SUFFIX] == Get(m, ENDPOINT_SUFFIX) && e[ENDPOINT_SUFFIX] == Get(e, ENDPOINT_SUFFIX);
  }

  /** Written credentials are where they are looked up, and nothing else changes. */
  lemma WrittenCredentials(m: Settings, c: Credentials)
    ensures var e := WithCredentials(WithoutCredentials(m), c);
      && WithoutCredentials(e) == WithoutCredentials(m)
      && Get(e, ACCOUNT_NAME) == (if c.IsSharedKey() then c.name else "")
      && Get(e, ACCOUNT_KEY) == (if c.IsSharedKey() then Base64.Encode(c.key) else "")
      && Get(e, SHARED_ACCESS_SIGNATURE) == (if c.IsSas() then c.sas else "")
  {
    NamesDiffer();
    hide ACCOUNT_NAME, ACCOUNT_KEY, SHARED_ACCESS_SIGNATURE, Base64.Encode;
    var e := WithCredentials(WithoutCredentials(m), c);
    assert WithoutCredentials(e) == WithoutCredentials(m);
  }

  /** Explicit credentials come back, but for the question mark that a SAS token still starts with. */
  lemma CredentialsAgain(m: Settings, c: Credentials)
    requires GetCredentials(m) == Some(c)
    ensures var e := WithCredentials(WithoutCredentials(m), c);
      && WithoutCredentials(e) == WithoutCredentials(m)
      && GetCredentials(e) == Some(c.(sas := Token(c.sas)))
  {
    WrittenCredentials(m, c);
    Base64.DecodeEncode(c.key);
    if Base64.Decode(Get(m, ACCOUNT_KEY)).Some? {
      Base64.DecodeEmpty(Get(m, ACCOUNT_KEY));
    }
    Base64.DecodeEmpty(Base64.Encode(c.key));
    hide Base64.Decode, Base64.Encode, WithCredentials, WithoutCredentials, Get, ACCOUNT_NAME, ACCOUNT_KEY,
         SHARED_ACCESS_SIGNATURE;
  }

  /** Endpoints are read from what the credentials leave. */
  lemma SameEndpoints(m: Settings, e: Settings)
    requires WithoutCredentials(e) == WithoutCredentials(m)
    ensures forall k :: k !in {ACCOUNT_NAME, ACCOUNT_KEY, SHARED_ACCESS_SIGNATURE} ==>
      (k in e <==> k in m) && Get(e, k) == Get(m, k)
  {
    hide ACCOUNT_NAME, ACCOUNT_KEY, SHARED_ACCESS_SIGNATURE;
    forall k | k !in {ACCOUNT_NAME, ACCOUNT_KEY, SHARED_ACCESS_SIGNATURE}
      ensures (k in e <==> k in m) && Get(e, k) == Get(m, k)
    {
      assert k in e <==> k in WithoutCredentials(e);
      assert k in m <==> k in WithoutCredentials(m);
    }
  }

  /** What the explicit reading makes of a map. */
  lemma ExplicitRead(isUri: string -> bool, m: Settings)
    requires ExplicitKeys(m) && GetCredentials(m).Some?
    ensures var endpoints := ExplicitServices(m);
      ParseSettings(isUri, m) ==
        if endpoints == Services(Unset, Unset, Unset, Unset) || !endpoints.Valid(isUri) then Throws
        else Initialized(Account(GetCredentials(m).value, endpoints, "", WithoutCredentials(m)))
  {
    NamesDiffer();
    hide USE_DEVELOPMENT_STORAGE, DEVELOPMENT_STORAGE_PROXY_URI, DEFAULT_ENDPOINTS_PROTOCOL, ENDPOINT_SUFFIX,
         ACCOUNT_NAME, ACCOUNT_KEY,
         SHARED_ACCESS_SIGNATURE, BLOB_ENDPOINT, QUEUE_ENDPOINT, TABLE_ENDPOINT, FILE_ENDPOINT;
    hide Endpoints.Valid, GetCredentials, ExplicitServices;
    assert ParseDevstore(isUri, m).NotInitialized? && ParseDefaults(isUri, m).NotInitialized?;
  }

  lemma ReparseExplicit(isUri: string -> bool, m: Settings, a: Account)
    requires ParseDevstore(isUri, m).NotInitialized? && ParseDefaults(isUri, m).NotInitialized?
    requires ParseSettings(isUri, m) == Initialized(a)
    ensures ParseSettings(isUri, Exported(a)) == Reread(a)
  {
    NamesDiffer();
    hide USE_DEVELOPMENT_STORAGE, DEVELOPMENT_STORAGE_PROXY_URI, DEFAULT_ENDPOINTS_PROTOCOL, ENDPOINT_SUFFIX,
         ACCOUNT_NAME, ACCOUNT_KEY,
         SHARED_ACCESS_SIGNATURE, BLOB_ENDPOINT, QUEUE_ENDPOINT, TABLE_ENDPOINT, FILE_ENDPOINT;
    hide Endpoints.Valid, DevCredentials, WithCredentials, GetCredentials, Get;
    var e := Exported(a);
    assert ExplicitKeys(m);
    ExplicitRead(isUri, m);
    hide ParseSettings, ParseDevstore, ParseDefaults, ParseExplicit;
    CredentialsAgain(m, a.credentials);
    SameEndpoints(m, e);
    assert ExplicitServices(e) == ExplicitServices(m);
    assert ExplicitKeys(e) by {
      forall k | k in e ensures k in m || k in {ACCOUNT_NAME, ACCOUNT_KEY, SHARED_ACCESS_SIGNATURE} {}
    }
    ExplicitRead(isUri, e);
    assert DEFAULT_ENDPOINTS_PROTOCOL !in a.settings;
  }

  /** What any reading leaves to write. */
  lemma ParsedAccount(isUri: string -> bool, m: Settings, a: Account)
    requires ParseSettings(isUri, m) == Initialized(a)
    ensures a.settings == WithoutCredentials(m) && a.settings != map[]
    ensures a.endpoints.DevStore? || a.credentials == ANONYMOUS
      || (a.credentials.name == Get(m, ACCOUNT_NAME) && a.credentials.sas == "")
      || (a.credentials.name == "" && a.credentials.sas == Token(Get(m, SHARED_ACCESS_SIGNATURE)))
    ensures ParseSettings(isUri, Exported(a)) == Reread(a)
  {
    if ParseDevstore(isUri, m).Initialized? {
      ReparseDevstore(isUri, m, a);
      assert USE_DEVELOPMENT_STORAGE in a.settings;
    } else if ParseDefaults(isUri, m).Initialized? {
      ReparseDefaults(isUri, m, a);
      NamesDiffer();
      assert DEFAULT_ENDPOINTS_PROTOCOL in a.settings;
    } else {
      ReparseExplicit(isUri, m, a);
      NamesDiffer();
      assert BLOB_ENDPOINT in a.settings || QUEUE_ENDPOINT in a.settings
        || TABLE_ENDPOINT in a.settings || FILE_ENDPOINT in a.settings;
    }
  }

  lemma DistinctPairs(a: Account, keys: seq<string>)
    requires Enumerates(keys, a.settings) && a.settings == WithoutCredentials(a.settings)
    ensures Distinct(Pairs(a, keys, true))
  {
    NamesDiffer();
    hide ACCOUNT_NAME, ACCOUNT_KEY, SHARED_ACCESS_SIGNATURE, Base64.Encode;
    var credentials := CredentialPairs(a, true);
    assert forall j :: 0 <= j < |credentials| ==> credentials[j].0 !in a.settings;
    assert forall i, j :: 0 <= i < j < |credentials| ==> credentials[i].0 != credentials[j].0;
    hide CredentialPairs;
  }

  /** The pairs an account writes are those of its exported settings. */
  lemma ExportedPairs(a: Account, keys: seq<string>)
    requires Enumerates(keys, a.settings) && a.settings == WithoutCredentials(a.settings)
    ensures Distinct(Pairs(a, keys, true)) && Holds(Exported(a), Pairs(a, keys, true))
  {
    NamesDiffer();
    hide ACCOUNT_NAME, ACCOUNT_KEY, SHARED_ACCESS_SIGNATURE;
    hide Base64.Encode;
    DistinctPairs(a, keys);
    var pairs, e, n := Pairs(a, keys, true), Exported(a), |keys|;
    forall i | 0 <= i < |pairs| ensures pairs[i].0 in e && e[pairs[i].0] == pairs[i].1 {}
    forall k | k in e ensures exists i :: 0 <= i < |pairs| && pairs[i].0 == k {
      if k in a.settings {
        var i :| 0 <= i < n && keys[i] == k;
        assert pairs[i].0 == k;
      } else if k == ACCOUNT_NAME || k == SHARED_ACCESS_SIGNATURE {
        assert pairs[n].0 == k;
      } else {
        assert pairs[n + 1].0 == k;
      }
    }
  }

  lemma CredentialNamesArePlain()
    ensures forall k, v: string ::
      k in {ACCOUNT_NAME, ACCOUNT_KEY, SHARED_ACCESS_SIGNATURE} && ';' !in v ==> Plain((k, v))
  {
    assert '=' !in ACCOUNT_NAME && ';' !in ACCOUNT_NAME;
    assert '=' !in ACCOUNT_KEY && ';' !in ACCOUNT_KEY;
    assert '=' !in SHARED_ACCESS_SIGNATURE && ';' !in SHARED_ACCESS_SIGNATURE;
  }

  lemma ExportIsPlain(a: Account, keys: seq<string>)
    requires forall i :: 0 <= i < |keys| ==> keys[i] in a.settings && Plain((keys[i], a.settings[keys[i]]))
    requires a.endpoints.DevStore? ||
      ((a.credentials.IsSharedKey() ==> ';' !in a.credentials.name)
       && (a.credentials.IsSas() ==> ';' !in a.credentials.sas))
    ensures forall i :: 0 <= i < |Pairs(a, keys, true)| ==> Plain(Pairs(a, keys, true)[i])
  {
    Base64.EncodeHasNoSemicolon(a.credentials.key);
    CredentialNamesArePlain();
    hide Base64.Encode, Plain, ACCOUNT_NAME, ACCOUNT_KEY, SHARED_ACCESS_SIGNATURE;
  }

  /** For every accepted string: what parsing the written account gives, whatever the order of its settings. */
  lemma WrittenAndRead(isUri: string -> bool, s: string, a: Account, keys: seq<string>)
    requires Parse(isUri, s) == Initialized(a) && Enumerates(keys, a.settings)
    ensures keys != []
    ensures Parse(isUri, Render(a, keys, true)) == Reread(a)
  {
    hide Base64.Encode, Base64.Decode, ParseSettings, Find, KeyOf, ValueOf, SettingsOf, Split, Join, Piece, Exported;
    var m := SettingsOf(Split(s, ';')).value;
    JoinSplit(s, ';');
    ParsedIsPlain(Split(s, ';'));
    ParsedAccount(isUri, m, a);
    assert keys != [] by {
      var k :| k in a.settings;
    }
    assert a.settings == WithoutCredentials(a.settings);
    ExportedPairs(a, keys);
    assert ';' !in Get(m, ACCOUNT_NAME) && ';' !in Get(m, SHARED_ACCESS_SIGNATURE);
    ExportIsPlain(a, keys);
    var pairs := Pairs(a, keys, true);
    TextRoundTrip(pairs);
    HoldsUnique(Exported(a), SettingsOf(Split(Render(a, keys, true), ';')).value, pairs);
  }

  /** For every accepted string: writing the account and parsing the result gives the same account, settings,
      endpoints and credentials, exactly if the account is exportable; whatever the order of its settings. */
  lemma RoundTripIff(isUri: string -> bool, s: string, a: Account, keys: seq<string>)
    requires Parse(isUri, s) == Initialized(a) && Enumerates(keys, a.settings)
    ensures keys != []
    ensures Parse(isUri, Render(a, keys, true)) == Initialized(a) <==> Exportable(a)
  {
    WrittenAndRead(isUri, s, a, keys);
    RereadIff(a);
  }

  /** DefaultEndpointsProtocol=http;AccountName=a;AccountKey= is accepted, but the string its account writes is not. */
  lemma EmptyKeyIsNotReadBack(isUri: string -> bool) returns (s: string, a: Account)
    requires DefaultEndpoints("a", "", false).Valid(isUri)
    ensures s == Join(Pieces([("DefaultEndpointsProtocol", "http"), ("AccountName", "a"), ("AccountKey", "")]), ';')
    ensures Parse(isUri, s) == Initialized(a)
    ensures forall keys :: Enumerates(keys, a.settings) ==> keys != [] && Parse(isUri, Render(a, keys, true)).Throws?
  {
    var pairs := [(DEFAULT_ENDPOINTS_PROTOCOL, "http"), (ACCOUNT_NAME, "a"), (ACCOUNT_KEY, "")];
    var m := map[DEFAULT_ENDPOINTS_PROTOCOL := "http", ACCOUNT_NAME := "a", ACCOUNT_KEY := ""];
    ThreePairs(pairs, m);
    s := Join(Pieces(pairs), ';');
    a := Account(Credentials("a", [], ""), DefaultServices(m), DefaultSuffix(m), WithoutCredentials(m));
    EmptyKeyAccount(isUri, m, a);
    hide *;
    hide Parse;
    ParsePairs(isUri, pairs, m);
    forall keys | Enumerates(keys, a.settings) ensures keys != [] && Parse(isUri, Render(a, keys, true)).Throws? {
      WrittenAndRead(isUri, s, a, keys);
    }
  }

  /** BlobEndpoint=u;SharedAccessSignature=??x is accepted with the token ?x, and read back with the token x. */
  lemma TwoQuestionMarksAreNotReadBack(isUri: string -> bool) returns (s: string, a: Account)
    requires isUri("u")
    ensures s == Join(Pieces([("BlobEndpoint", "u"), ("SharedAccessSignature", "??x")]), ';')
    ensures Parse(isUri, s) == Initialized(a) && a.credentials == Credentials("", [], "?x")
    ensures forall keys :: Enumerates(keys, a.settings) ==>
      keys != [] && Parse(isUri, Render(a, keys, true)) == Initialized(a.(credentials := Credentials("", [], "x")))
  {
    var pairs := [(BLOB_ENDPOINT, "u"), (SHARED_ACCESS_SIGNATURE, "??x")];
    var m := map[BLOB_ENDPOINT := "u", SHARED_ACCESS_SIGNATURE := "??x"];
    TwoPairs(pairs, m);
    s := Join(Pieces(pairs), ';');
    a := Account(Credentials("", [], "?x"), Services(Given("u"), Unset, Unset, Unset), "", WithoutCredentials(m));
    SasAccount(isUri, m, a);
    hide *;
    hide Parse;
    ParsePairs(isUri, pairs, m);
    forall keys | Enumerates(keys, a.settings)
      ensures keys != [] && Parse(isUri, Render(a, keys, true))
        == Initialized(a.(credentials := Credentials("", [], "x")))
    {
      WrittenAndRead(isUri, s, a, keys);
    }
  }

  /** The string of some pairs is parsed as their map is. */
  lemma ParsePairs(isUri: string -> bool, pairs: seq<(string, string)>, m: Settings)
    requires pairs != [] && Distinct(pairs) && Holds(m, pairs) && forall i :: 0 <= i < |pairs| ==> Plain(pairs[i])
    ensures Parse(isUri, Join(Pieces(pairs), ';')) == ParseSettings(isUri, m)
  {
    hide ParseSettings, Split, Join, SettingsOf, Plain, Distinct, Holds;
    TextRoundTrip(pairs);
    HoldsUnique(m, SettingsOf(Split(Join(Pieces(pairs), ';'), ';')).value, pairs);
  }

  lemma TwoPairs(pairs: seq<(string, string)>, m: Settings)
    requires pairs == [(BLOB_ENDPOINT, "u"), (SHARED_ACCESS_SIGNATURE, "??x")]
    requires m == map[BLOB_ENDPOINT := "u", SHARED_ACCESS_SIGNATURE := "??x"]
    ensures Distinct(pairs) && Holds(m, pairs) && forall i :: 0 <= i < |pairs| ==> Plain(pairs[i])
  {
    NamesDiffer();
    CredentialNamesArePlain();
    assert '=' !in BLOB_ENDPOINT && ';' !in BLOB_ENDPOINT;
    hide BLOB_ENDPOINT, SHARED_ACCESS_SIGNATURE;
    assert pairs[0].0 == BLOB_ENDPOINT && pairs[1].0 == SHARED_ACCESS_SIGNATURE;
  }

  lemma SasAccount(isUri: string -> bool, m: Settings, a: Account)
    requires isUri("u")
    requires m == map[BLOB_ENDPOINT := "u", SHARED_ACCESS_SIGNATURE := "??x"]
    requires a == Account(Credentials("", [], "?x"), Services(Given("u"), Unset, Unset, Unset), "",
      WithoutCredentials(m))
    ensures ParseSettings(isUri, m) == Initialized(a)
    ensures Reread(a) == Initialized(a.(credentials := Credentials("", [], "x")))
  {
    NamesDiffer();
    hide USE_DEVELOPMENT_STORAGE, DEVELOPMENT_STORAGE_PROXY_URI, DEFAULT_ENDPOINTS_PROTOCOL, ENDPOINT_SUFFIX,
         ACCOUNT_NAME, ACCOUNT_KEY,
         SHARED_ACCESS_SIGNATURE, BLOB_ENDPOINT, QUEUE_ENDPOINT, TABLE_ENDPOINT, FILE_ENDPOINT, DEFAULT_SUFFIX;
    hide ParseSettings, SharedKey;
    var sas := "??x";
    assert Token(sas) == "?x" && Token("?x") == "x";
    assert Get(m, ACCOUNT_NAME) == "" && Get(m, ACCOUNT_KEY) == "" && Get(m, SHARED_ACCESS_SIGNATURE) == sas;
    ExplicitRead(isUri, m);
  }

  lemma ThreePairs(pairs: seq<(string, string)>, m: Settings)
    requires pairs == [(DEFAULT_ENDPOINTS_PROTOCOL, "http"), (ACCOUNT_NAME, "a"), (ACCOUNT_KEY, "")]
    requires m == map[DEFAULT_ENDPOINTS_PROTOCOL := "http", ACCOUNT_NAME := "a", ACCOUNT_KEY := ""]
    ensures Distinct(pairs) && Holds(m, pairs) && forall i :: 0 <= i < |pairs| ==> Plain(pairs[i])
  {
    NamesDiffer();
    CredentialNamesArePlain();
    assert '=' !in DEFAULT_ENDPOINTS_PROTOCOL && ';' !in DEFAULT_ENDPOINTS_PROTOCOL;
    hide DEFAULT_ENDPOINTS_PROTOCOL, ACCOUNT_NAME, ACCOUNT_KEY;
    assert pairs[0].0 == DEFAULT_ENDPOINTS_PROTOCOL && pairs[1].0 == ACCOUNT_NAME && pairs[2].0 == ACCOUNT_KEY;
  }

  lemma EmptyKeyAccount(isUri: string -> bool, m: Settings, a: Account)
    requires DefaultEndpoints("a", "", false).Valid(isUri)
    requires m == map[DEFAULT_ENDPOINTS_PROTOCOL := "http", ACCOUNT_NAME := "a", ACCOUNT_KEY := ""]
    requires a == Account(Credentials("a", [], ""), DefaultServices(m), DefaultSuffix(m), WithoutCredentials(m))
    ensures ParseSettings(isUri, m) == Initialized(a) && Reread(a).Throws?
  {
    NamesDiffer();
    hide USE_DEVELOPMENT_STORAGE, DEVELOPMENT_STORAGE_PROXY_URI, DEFAULT_ENDPOINTS_PROTOCOL, ENDPOINT_SUFFIX,
         ACCOUNT_NAME, ACCOUNT_KEY,
         SHARED_ACCESS_SIGNATURE, BLOB_ENDPOINT, QUEUE_ENDPOINT, TABLE_ENDPOINT, FILE_ENDPOINT, DEFAULT_SUFFIX;
    hide ParseSettings;
    assert DefaultServices(m) == DefaultEndpoints("a", "", false);
    assert SharedKey("a", "") == Some(Credentials("a", [], ""));
    hide DefaultServices, DefaultEndpoints, DefaultSuffix, Endpoint.Valid, Endpoints.Valid, SharedKey, Base64.Decode;
    assert Get(m, ACCOUNT_NAME) == "a" && Get(m, ACCOUNT_KEY) == "";
    DefaultsRead(isUri, m, Credentials("a", [], ""));
    assert DEFAULT_ENDPOINTS_PROTOCOL in a.settings;
  }

  // ---------- accounts that were not parsed ----------

  function With(m: Settings, key: string, value: string): Settings { if value == "" then m else m[key := value] }

  /** The settings that to_string writes down for an account that has none. */
  function Derived(defaultEndpoints: bool, endpoints: Endpoints, suffix: string): Settings {
    if endpoints.DevStore? then map[]
    else if defaultEndpoints then
      With(map[DEFAULT_ENDPOINTS_PROTOCOL := if endpoints.blob.Standard? then endpoints.blob.scheme else ""],
        ENDPOINT_SUFFIX, suffix)
    else
      With(With(With(With(map[], BLOB_ENDPOINT, endpoints.blob.Primary()), QUEUE_ENDPOINT, endpoints.queue.Primary()),
                TABLE_ENDPOINT, endpoints.table.Primary()), FILE_ENDPOINT, endpoints.file.Primary())
  }

  /** An account with default endpoints is understood again from its string, if and only if it has a shared key and
      neither its name nor its suffix contains the separator. */
  lemma ConstructedRoundTrip(isUri: string -> bool, credentials: Credentials, suffix: string, useHttps: bool,
                             keys: seq<string>)
    requires DefaultEndpoints(credentials.name, suffix, useHttps).Valid(isUri)
    requires Enumerates(keys, Derived(true, DefaultEndpoints(credentials.name, suffix, useHttps), suffix))
    ensures keys != []
    ensures var endpoints := DefaultEndpoints(credentials.name, suffix, useHttps);
      var a := Account(credentials, endpoints, suffix, Derived(true, endpoints, suffix));
      Parse(isUri, Render(a, keys, true)) == Initialized(a.(suffix := if suffix == "" then DEFAULT_SUFFIX else suffix))
      <==> credentials.IsSharedKey() && ';' !in credentials.name && ';' !in suffix
  {
    hide Base64.Encode, ParseSettings, Endpoints.Valid, Join, Split, SettingsOf;
    hide DEFAULT_ENDPOINTS_PROTOCOL, ENDPOINT_SUFFIX, DEFAULT_SUFFIX;
    var endpoints := DefaultEndpoints(credentials.name, suffix, useHttps);
    var a := Account(credentials, endpoints, suffix, Derived(true, endpoints, suffix));
    assert DEFAULT_ENDPOINTS_PROTOCOL in a.settings;
    var b := a.(suffix := if suffix == "" then DEFAULT_SUFFIX else suffix);
    if credentials.IsSas() {
      ConstructedSasIsRejected(isUri, a, keys);
    } else if ';' !in suffix && (credentials.IsSharedKey() ==> ';' !in credentials.name) {
      ConstructedIsParsed(isUri, a, keys);
      if credentials.IsSharedKey() {
        DerivedIsParsed(isUri, a, useHttps);
      } else {
        NamesDiffer();
        ProtocolNeedsName(isUri, a.settings);
      }
    } else if Parse(isUri, Render(a, keys, true)) == Initialized(b) {
      ReadBackIsPlain(isUri, Render(a, keys, true), b, suffix);
    }
  }

  /** Where no separator is in the way, the string of an account is read as its exported settings are. */
  lemma ConstructedIsParsed(isUri: string -> bool, a: Account, keys: seq<string>)
    requires a.credentials.IsSharedKey() ==> ';' !in a.credentials.name
    requires ';' !in a.suffix && !a.credentials.IsSas()
    requires a.endpoints.Services? && a.endpoints.blob.Standard? && ';' !in a.endpoints.blob.scheme
    requires a.settings == Derived(true, a.endpoints, a.suffix) && Enumerates(keys, a.settings) && keys != []
    ensures a.settings == WithoutCredentials(a.settings)
    ensures Parse(isUri, Render(a, keys, true)) == ParseSettings(isUri, Exported(a))
  {
    DerivedIsPlain(a.endpoints, a.suffix);
    hide Base64.Encode, Base64.Decode, ParseSettings, Find, Split, Join, Piece, SettingsOf, Derived;
    ExportedPairs(a, keys);
    ExportIsPlain(a, keys);
    var pairs := Pairs(a, keys, true);
    TextRoundTrip(pairs);
    HoldsUnique(Exported(a), SettingsOf(Split(Render(a, keys, true), ';')).value, pairs);
  }

  lemma PlainNames()
    ensures DEFAULT_ENDPOINTS_PROTOCOL != "" && '=' !in DEFAULT_ENDPOINTS_PROTOCOL && ';' !in DEFAULT_ENDPOINTS_PROTOCOL
    ensures SHARED_ACCESS_SIGNATURE != "" && '=' !in SHARED_ACCESS_SIGNATURE && ';' !in SHARED_ACCESS_SIGNATURE
  {}

  /** A SAS token and default endpoints: the string that the account writes is always rejected, even where the token
      or the suffix contains separators. */
  lemma ConstructedSasIsRejected(isUri: string -> bool, a: Account, keys: seq<string>)
    requires a.credentials.IsSas() && a.endpoints.Services?
    requires a.settings == Derived(true, a.endpoints, a.suffix) && Enumerates(keys, a.settings)
    ensures keys != []
    ensures Parse(isUri, Render(a, keys, true)).Throws?
  {
    hide Split, Join, ParseSettings, SettingsOf;
    PlainNames();
    hide DEFAULT_ENDPOINTS_PROTOCOL, SHARED_ACCESS_SIGNATURE, ENDPOINT_SUFFIX;
    assert DEFAULT_ENDPOINTS_PROTOCOL in a.settings;
    var i :| 0 <= i < |keys| && keys[i] == DEFAULT_ENDPOINTS_PROTOCOL;
    var pairs := Pairs(a, keys, true);
    assert pairs[i].0 == DEFAULT_ENDPOINTS_PROTOCOL && pairs[|keys|].0 == SHARED_ACCESS_SIGNATURE;
    assert Pieces(pairs) != [];
    hide Pairs, Pieces;
    if SettingsOf(Split(Join(Pieces(pairs), ';'), ';')).Some? {
      WrittenKeyIsRead(pairs, i);
      WrittenKeyIsRead(pairs, |keys|);
      ProtocolAndTokenClash(isUri, SettingsOf(Split(Join(Pieces(pairs), ';'), ';')).value);
    }
  }

  /** No reading knows both a protocol and a SAS token. */
  lemma ProtocolAndTokenClash(isUri: string -> bool, m: Settings)
    requires DEFAULT_ENDPOINTS_PROTOCOL in m && SHARED_ACCESS_SIGNATURE in m
    ensures ParseSettings(isUri, m).Throws?
  {
    AcceptedIff(isUri, m);
    hide ParseDevstore, ParseDefaults, ParseExplicit, GetCredentials;
  }

  /** A key that was written is read, whatever the values around it contain. */
  lemma WrittenKeyIsRead(pairs: seq<(string, string)>, i: nat)
    requires i < |pairs| && pairs[i].0 != "" && '=' !in pairs[i].0 && ';' !in pairs[i].0
    requires SettingsOf(Split(Join(Pieces(pairs), ';'), ';')).Some?
    ensures pairs[i].0 in SettingsOf(Split(Join(Pieces(pairs), ';'), ';')).value
  {
    hide Split, Join, SettingsOf, KeyOf, Find, Piece;
    var pieces := Split(Join(Pieces(pairs), ';'), ';');
    SplitOfJoin(Pieces(pairs), ';', i);
    FirstPiece(pairs[i]);
    var j :| 0 <= j < |pieces| && pieces[j] == Split(Pieces(pairs)[i], ';')[0];
    KeyIsRead(pieces, j);
  }

  lemma FirstPiece(pair: (string, string))
    requires pair.0 != "" && '=' !in pair.0 && ';' !in pair.0
    ensures var first := Split(Piece(pair), ';')[0]; first != "" && KeyOf(first) == pair.0
  {
    hide Split, Find, KeyOf;
    var p, n := Piece(pair), |pair.0| + 1;
    var i := Find(p, ';', 0);
    SplitAtFind(p, ';');
    FindBehind(pair.0 + "=", pair.1, ';');
    var first := (pair.0, pair.1[..i - n]);
    assert p[..i] == Piece(first);
    assert i == |p| ==> p[..i] == p;
    PieceParts(first);
  }

  lemma {:induction false} KeyIsRead(pieces: seq<string>, i: nat)
    requires i < |pieces| && pieces[i] != "" && SettingsOf(pieces).Some?
    ensures KeyOf(pieces[i]) in SettingsOf(pieces).value
  {
    hide KeyOf, ValueOf;
    if i < |pieces| - 1 {
      KeyIsRead(pieces[..|pieces| - 1], i);
    }
  }

  /** No string is parsed as an account whose name or suffix contains a separator. */
  lemma ReadBackIsPlain(isUri: string -> bool, s: string, b: Account, suffix: string)
    requires Parse(isUri, s) == Initialized(b) && b.endpoints.Services?
    requires suffix == "" || (ENDPOINT_SUFFIX in b.settings && b.settings[ENDPOINT_SUFFIX] == suffix)
    ensures ';' !in b.credentials.name && ';' !in suffix
  {
    hide ParseSettings, Split, SettingsOf, ACCOUNT_NAME, ACCOUNT_KEY, SHARED_ACCESS_SIGNATURE, ENDPOINT_SUFFIX;
    JoinSplit(s, ';');
    ParsedIsPlain(Split(s, ';'));
    var m := SettingsOf(Split(s, ';')).value;
    ParsedAccount(isUri, m, b);
    assert suffix != "" ==> ENDPOINT_SUFFIX in m && m[ENDPOINT_SUFFIX] == suffix;
    assert ACCOUNT_NAME in m ==> Plain((ACCOUNT_NAME, m[ACCOUNT_NAME]));
    assert ENDPOINT_SUFFIX in m ==> Plain((ENDPOINT_SUFFIX, m[ENDPOINT_SUFFIX]));
  }

  lemma DerivedIsPlain(endpoints: Endpoints, suffix: string)
    requires ';' !in suffix && endpoints.Services? && endpoints.blob.Standard? && ';' !in endpoints.blob.scheme
    ensures var m := Derived(true, endpoints, suffix);
      m == WithoutCredentials(m) && forall k :: k in m ==> Plain((k, m[k]))
  {
    NamesDiffer();
    assert '=' !in DEFAULT_ENDPOINTS_PROTOCOL && ';' !in DEFAULT_ENDPOINTS_PROTOCOL;
    assert '=' !in ENDPOINT_SUFFIX && ';' !in ENDPOINT_SUFFIX;
    hide ACCOUNT_NAME, ACCOUNT_KEY, SHARED_ACCESS_SIGNATURE;
    var m := Derived(true, endpoints, suffix);
    assert m == WithoutCredentials(m);
  }

  lemma DerivedIsParsed(isUri: string -> bool, a: Account, useHttps: bool)
    requires a.credentials.IsSharedKey()
    requires a.endpoints == DefaultEndpoints(a.credentials.name, a.suffix, useHttps) && a.endpoints.Valid(isUri)
    requires a.settings == Derived(true, a.endpoints, a.suffix) == WithoutCredentials(a.settings)
    ensures ParseSettings(isUri, Exported(a))
      == Initialized(a.(suffix := if a.suffix == "" then DEFAULT_SUFFIX else a.suffix))
  {
    NamesDiffer();
    hide Endpoints.Valid, Endpoint.Valid, ParseSettings;
    hide USE_DEVELOPMENT_STORAGE, DEVELOPMENT_STORAGE_PROXY_URI, DEFAULT_ENDPOINTS_PROTOCOL, ENDPOINT_SUFFIX,
         ACCOUNT_NAME, ACCOUNT_KEY,
         SHARED_ACCESS_SIGNATURE, BLOB_ENDPOINT, QUEUE_ENDPOINT, TABLE_ENDPOINT, FILE_ENDPOINT, DEFAULT_SUFFIX;
    var e := Exported(a);
    Base64.DecodeEncode(a.credentials.key);
    hide Base64.Encode, Base64.Decode;
    assert WithoutCredentials(e) == a.settings;
    assert DefaultSuffix(e) == if a.suffix == "" then DEFAULT_SUFFIX else a.suffix;
    assert DefaultServices(e) == a.endpoints;
    DefaultsRead(isUri, e, a.credentials);
  }

  // ---------- what stands in the string ----------

  function SettingsPart(m: Settings, keys: seq<string>): string
    requires forall i :: 0 <= i < |keys| ==> keys[i] in m
  {
    if keys == [] then "" else Join(Pieces(SettingPairs(m, keys)), ';')
  }

  /** The string of an account, which may have no settings. */
  function Text(a: Account, keys: seq<string>, secrets: bool): string
    requires forall i :: 0 <= i < |keys| ==> keys[i] in a.settings
  {
    if keys == [] then Tail(CredentialPairs(a, secrets)) else Render(a, keys, secrets)
  }

  lemma OnePiece(text: seq<(string, string)>, p: (string, string))
    requires text != []
    ensures Join(Pieces(text + [p]), ';') == Join(Pieces(text), ';') + ";" + Piece(p)
  {
    hide Piece, Join;
    assert Pieces(text + [p]) == Pieces(text) + [Piece(p)];
    JoinAppend(Pieces(text), Piece(p), ';');
  }

  lemma NamedPieces(value: string)
    ensures ";" + Piece((ACCOUNT_NAME, value)) == ";AccountName=" + value
    ensures ";" + Piece((ACCOUNT_KEY, value)) == ";AccountKey=" + value
    ensures ";" + Piece((SHARED_ACCESS_SIGNATURE, value)) == ";SharedAccessSignature=" + value
  {
    assert ";" + ("AccountName" + "=" + value) == ";AccountName=" + value;
    assert ";" + ("AccountKey" + "=" + value) == ";AccountKey=" + value;
    assert ";" + ("SharedAccessSignature" + "=" + value) == ";SharedAccessSignature=" + value;
  }

  lemma TailIs(pairs: seq<(string, string)>)
    requires |pairs| <= 2
    ensures Tail(pairs) ==
      if |pairs| == 0 then "" else if |pairs| == 1 then ";" + Piece(pairs[0])
      else ";" + Piece(pairs[0]) + ";" + Piece(pairs[1])
  {
    hide Piece;
    if |pairs| == 2 {
      assert Tail(pairs[..1]) == Tail(pairs[..1][..0]) + ";" + Piece(pairs[0]);
    }
  }

  lemma {:induction false} PairsBehind(text: seq<(string, string)>, pairs: seq<(string, string)>)
    requires text != []
    ensures Join(Pieces(text + pairs), ';') == Join(Pieces(text), ';') + Tail(pairs)
    decreases |pairs|
  {
    assert Pieces(text) != [];
    hide Piece, Join, Pieces;
    if pairs == [] {
      assert text + pairs == text;
    } else {
      var n := |pairs| - 1;
      assert text + pairs == text + pairs[..n] + [pairs[n]];
      OnePiece(text + pairs[..n], pairs[n]);
      PairsBehind(text, pairs[..n]);
      Associate(Join(Pieces(text), ';'), Tail(pairs[..n]), ";", Piece(pairs[n]));
    }
  }

  lemma Append(a: string, b: string, c: string)
    ensures a + b + c == a + (b + c)
  {}

  lemma Associate(a: string, b: string, c: string, d: string)
    ensures a + b + c + d == a + (b + c + d)
  {}

  /** What is written for the credentials. */
  function CredentialsText(a: Account, secrets: bool): string {
    var c := a.credentials;
    if a.endpoints.DevStore? then ""
    else if c.sas == "" && c.key != [] then
      ";AccountName=" + c.name + ";AccountKey=" + (if secrets then Base64.Encode(c.key) else "[key hidden]")
    else if c.sas != "" && c.key == [] then
      ";SharedAccessSignature=" + (if secrets then c.sas else "[key hidden]")
    else ""
  }

  lemma KeyTail(name: string, key: string)
    ensures Tail([(ACCOUNT_NAME, name), (ACCOUNT_KEY, key)]) == ";AccountName=" + name + ";AccountKey=" + key
  {
    NamedPieces(name);
    NamedPieces(key);
    TailIs([(ACCOUNT_NAME, name), (ACCOUNT_KEY, key)]);
    hide Piece, Tail, ACCOUNT_NAME, ACCOUNT_KEY;
    Append(";AccountName=" + name, ";", Piece((ACCOUNT_KEY, key)));
    Append(";AccountName=" + name, ";AccountKey=", key);
  }

  lemma TokenTail(token: string)
    ensures Tail([(SHARED_ACCESS_SIGNATURE, token)]) == ";SharedAccessSignature=" + token
  {
    NamedPieces(token);
    TailIs([(SHARED_ACCESS_SIGNATURE, token)]);
    hide Piece, Tail, SHARED_ACCESS_SIGNATURE;
  }

  lemma TailOfCredentials(a: Account, secrets: bool)
    ensures Tail(CredentialPairs(a, secrets)) == CredentialsText(a, secrets)
  {
    var c := a.credentials;
    TailIs([]);
    KeyTail(c.name, if secrets then Base64.Encode(c.key) else "[key hidden]");
    TokenTail(if secrets then c.sas else "[key hidden]");
    hide Tail, ACCOUNT_NAME, ACCOUNT_KEY, SHARED_ACCESS_SIGNATURE, Base64.Encode;
  }

  /** Behind the settings stand the name and the key, or the token, or nothing; without secrets a fixed text stands for
      the key and the token. */
  lemma TextIs(a: Account, keys: seq<string>, secrets: bool)
    requires forall i :: 0 <= i < |keys| ==> keys[i] in a.settings
    ensures Text(a, keys, secrets) == SettingsPart(a.settings, keys) + CredentialsText(a, secrets)
  {
    hide CredentialPairs, CredentialsText, Tail, Join, Pieces;
    TailOfCredentials(a, secrets);
    if keys != [] {
      PairsBehind(SettingPairs(a.settings, keys), CredentialPairs(a, secrets));
    }
  }

  /** Without secrets the string tells nothing about them: it is the same for every key, and for every token. */
  lemma SecretsStayHidden(a: Account, b: Account, keys: seq<string>)
    requires a.settings == b.settings && a.endpoints.DevStore? == b.endpoints.DevStore?
    requires forall i :: 0 <= i < |keys| ==> keys[i] in a.settings
    requires || (a.credentials.IsSharedKey() && b.credentials.IsSharedKey() && a.credentials.name == b.credentials.name)
             || (a.credentials.IsSas() && b.credentials.IsSas())
    ensures Text(a, keys, false) == Text(b, keys, false)
  {
    hide Text, SettingsPart;
    TextIs(a, keys, false);
    TextIs(b, keys, false);
  }

  // ---------- what is accepted, and as what ----------

  lemma DevstoreAccepted(isUri: string -> bool, m: Settings)
    requires USE_DEVELOPMENT_STORAGE in m
    ensures !DefaultKeys(m) && !ExplicitKeys(m)
    ensures ParseSettings(isUri, m).Initialized? <==>
      && m[USE_DEVELOPMENT_STORAGE] == "true" && m.Keys <= {USE_DEVELOPMENT_STORAGE, DEVELOPMENT_STORAGE_PROXY_URI}
      && (DEVELOPMENT_STORAGE_PROXY_URI in m ==> isUri(m[DEVELOPMENT_STORAGE_PROXY_URI]))
  {
    NamesDiffer();
    hide USE_DEVELOPMENT_STORAGE, DEVELOPMENT_STORAGE_PROXY_URI, DEFAULT_ENDPOINTS_PROTOCOL, ENDPOINT_SUFFIX,
         ACCOUNT_NAME, ACCOUNT_KEY,
         SHARED_ACCESS_SIGNATURE, BLOB_ENDPOINT, QUEUE_ENDPOINT, TABLE_ENDPOINT, FILE_ENDPOINT;
    hide DefaultServices, ExplicitServices, Base64.Decode, DevCredentials;
  }

  lemma DefaultsAccepted(isUri: string -> bool, m: Settings)
    requires USE_DEVELOPMENT_STORAGE !in m && DefaultKeys(m)
    ensures !ExplicitKeys(m)
    ensures ParseSettings(isUri, m).Initialized? <==>
      Base64.Decode(Get(m, ACCOUNT_KEY)).Some? && DefaultServices(m).Valid(isUri)
  {
    NamesDiffer();
    hide USE_DEVELOPMENT_STORAGE, DEVELOPMENT_STORAGE_PROXY_URI, DEFAULT_ENDPOINTS_PROTOCOL, ENDPOINT_SUFFIX,
         ACCOUNT_NAME, ACCOUNT_KEY,
         SHARED_ACCESS_SIGNATURE, BLOB_ENDPOINT, QUEUE_ENDPOINT, TABLE_ENDPOINT, FILE_ENDPOINT;
    hide Endpoints.Valid, DefaultServices, ExplicitServices, Base64.Decode;
  }

  lemma ExplicitAccepted(isUri: string -> bool, m: Settings)
    requires USE_DEVELOPMENT_STORAGE !in m && !DefaultKeys(m)
    ensures var name, key, sas := Get(m, ACCOUNT_NAME), Get(m, ACCOUNT_KEY), Get(m, SHARED_ACCESS_SIGNATURE);
      ParseSettings(isUri, m).Initialized? <==>
        && ExplicitKeys(m) && ExplicitServices(m) != Services(Unset, Unset, Unset, Unset)
        && (name != "" && key != "" && sas == "" ==> Base64.Decode(key).Some?)
        && ExplicitServices(m).Valid(isUri)
  {
    NamesDiffer();
    hide USE_DEVELOPMENT_STORAGE, DEVELOPMENT_STORAGE_PROXY_URI, DEFAULT_ENDPOINTS_PROTOCOL, ENDPOINT_SUFFIX,
         ACCOUNT_NAME, ACCOUNT_KEY,
         SHARED_ACCESS_SIGNATURE, BLOB_ENDPOINT, QUEUE_ENDPOINT, TABLE_ENDPOINT, FILE_ENDPOINT;
    hide Endpoints.Valid, DefaultServices, ExplicitServices, Base64.Decode;
  }

  lemma Accepted(isUri: string -> bool, m: Settings)
    ensures var name, key, sas := Get(m, ACCOUNT_NAME), Get(m, ACCOUNT_KEY), Get(m, SHARED_ACCESS_SIGNATURE);
      ParseSettings(isUri, m).Initialized? <==>
        || (&& USE_DEVELOPMENT_STORAGE in m && m[USE_DEVELOPMENT_STORAGE] == "true"
            && m.Keys <= {USE_DEVELOPMENT_STORAGE, DEVELOPMENT_STORAGE_PROXY_URI}
            && (DEVELOPMENT_STORAGE_PROXY_URI in m ==> isUri(m[DEVELOPMENT_STORAGE_PROXY_URI])))
        || (&& {DEFAULT_ENDPOINTS_PROTOCOL, ACCOUNT_NAME, ACCOUNT_KEY} <= m.Keys
            && m.Keys <= {DEFAULT_ENDPOINTS_PROTOCOL, ACCOUNT_NAME, ACCOUNT_KEY, ENDPOINT_SUFFIX, BLOB_ENDPOINT,
                          QUEUE_ENDPOINT, TABLE_ENDPOINT, FILE_ENDPOINT}
            && Base64.Decode(key).Some? && DefaultServices(m).Valid(isUri))
        || (&& m.Keys <= {BLOB_ENDPOINT, QUEUE_ENDPOINT, TABLE_ENDPOINT, FILE_ENDPOINT, ACCOUNT_NAME, ACCOUNT_KEY,
                          SHARED_ACCESS_SIGNATURE}
            && (Get(m, BLOB_ENDPOINT) != "" || Get(m, QUEUE_ENDPOINT) != "" || Get(m, TABLE_ENDPOINT) != ""
                || Get(m, FILE_ENDPOINT) != "")
            && (name != "" && key != "" && sas == "" ==> Base64.Decode(key).Some?)
            && ExplicitServices(m).Valid(isUri))
  {
    NamesDiffer();
    hide USE_DEVELOPMENT_STORAGE, DEVELOPMENT_STORAGE_PROXY_URI, DEFAULT_ENDPOINTS_PROTOCOL, ENDPOINT_SUFFIX,
         ACCOUNT_NAME, ACCOUNT_KEY,
         SHARED_ACCESS_SIGNATURE, BLOB_ENDPOINT, QUEUE_ENDPOINT, TABLE_ENDPOINT, FILE_ENDPOINT;
    hide ParseSettings, Endpoints.Valid, DefaultServices, Base64.Decode;
    if USE_DEVELOPMENT_STORAGE in m {
      DevstoreAccepted(isUri, m);
    } else if DefaultKeys(m) {
      DefaultsAccepted(isUri, m);
    } else {
      ExplicitAccepted(isUri, m);
    }
  }

  /** A given endpoint is a URI; where there is none and a protocol is known, both URIs made from it are. */
  predicate UriFor(isUri: string -> bool, m: Settings, key: string, service: string) {
    if Get(m, key) != "" then isUri(Get(m, key))
    else "DefaultEndpointsProtocol" in m ==>
      var scheme, name := m["DefaultEndpointsProtocol"], Get(m, "AccountName");
      var suffix := if "EndpointSuffix" in m then m["EndpointSuffix"] else "core.windows.net";
      && isUri(scheme + "://" + name + "." + service + "." + suffix)
      && isUri(scheme + "://" + name + "-secondary" + "." + service + "." + suffix)
  }

  predicate EndpointsAreUris(isUri: string -> bool, m: Settings) {
    && UriFor(isUri, m, "BlobEndpoint", "blob") && UriFor(isUri, m, "QueueEndpoint", "queue")
    && UriFor(isUri, m, "TableEndpoint", "table") && UriFor(isUri, m, "FileEndpoint", "file")
  }

  lemma UrisIff(isUri: string -> bool, m: Settings)
    ensures DEFAULT_ENDPOINTS_PROTOCOL in m ==> (DefaultServices(m).Valid(isUri) <==> EndpointsAreUris(isUri, m))
    ensures DEFAULT_ENDPOINTS_PROTOCOL !in m ==> (ExplicitServices(m).Valid(isUri) <==> EndpointsAreUris(isUri, m))
  {}

  /** Exactly which settings make an account. */
  lemma AcceptedIff(isUri: string -> bool, m: Settings)
    ensures var name, key, sas := Get(m, "AccountName"), Get(m, "AccountKey"), Get(m, "SharedAccessSignature");
      ParseSettings(isUri, m).Initialized? <==>
        || (&& "UseDevelopmentStorage" in m && m["UseDevelopmentStorage"] == "true"
            && m.Keys <= {"UseDevelopmentStorage", "DevelopmentStorageProxyUri"}
            && ("DevelopmentStorageProxyUri" in m ==> isUri(m["DevelopmentStorageProxyUri"])))
        || (&& {"DefaultEndpointsProtocol", "AccountName", "AccountKey"} <= m.Keys
            && m.Keys <= {"DefaultEndpointsProtocol", "AccountName", "AccountKey", "EndpointSuffix", "BlobEndpoint",
                          "QueueEndpoint", "TableEndpoint", "FileEndpoint"}
            && Base64.Decode(key).Some? && EndpointsAreUris(isUri, m))
        || (&& m.Keys <= {"BlobEndpoint", "QueueEndpoint", "TableEndpoint", "FileEndpoint", "AccountName", "AccountKey",
                          "SharedAccessSignature"}
            && (Get(m, "BlobEndpoint") != "" || Get(m, "QueueEndpoint") != "" || Get(m, "TableEndpoint") != ""
                || Get(m, "FileEndpoint") != "")
            && (name != "" && key != "" && sas == "" ==> Base64.Decode(key).Some?)
            && EndpointsAreUris(isUri, m))
  {
    Accepted(isUri, m);
    UrisIff(isUri, m);
    hide EndpointsAreUris, ParseSettings, DefaultServices, ExplicitServices, Endpoints.Valid, Base64.Decode;
  }

  /** A name with a key, a token without its leading question mark, or nothing. */
  predicate AreFor(c: Credentials, name: string, key: string, sas: string) {
    if name != "" && key != "" && sas == "" then
      c.name == name && Base64.Decode(key) == Some(c.key) && c.sas == ""
    else if name == "" && key == "" && sas != "" then
      c.name == "" && c.key == [] && c.sas == if sas[0] == '?' then sas[1..] else sas
    else
      c.name == "" && c.key == [] && c.sas == ""
  }

  /** A given endpoint is taken as it is; otherwise it is made from the protocol, if there is one, or missing. */
  predicate IsFor(m: Settings, suffix: string, e: Endpoint, key: string, service: string) {
    e.Primary() ==
      if Get(m, key) != "" then Get(m, key)
      else if "DefaultEndpointsProtocol" in m then
        m["DefaultEndpointsProtocol"] + "://" + Get(m, "AccountName") + "." + service + "." + suffix
      else ""
  }

  lemma DevstoreAs(isUri: string -> bool, m: Settings, a: Account)
    requires USE_DEVELOPMENT_STORAGE in m && ParseSettings(isUri, m) == Initialized(a)
    ensures a == Account(DevCredentials(), DevStore(Get(m, DEVELOPMENT_STORAGE_PROXY_URI)), "", WithoutCredentials(m))
    ensures DEFAULT_ENDPOINTS_PROTOCOL !in m
  {
    NamesDiffer();
    hide USE_DEVELOPMENT_STORAGE, DEVELOPMENT_STORAGE_PROXY_URI, DEFAULT_ENDPOINTS_PROTOCOL, ENDPOINT_SUFFIX,
         ACCOUNT_NAME, ACCOUNT_KEY,
         SHARED_ACCESS_SIGNATURE, BLOB_ENDPOINT, QUEUE_ENDPOINT, TABLE_ENDPOINT, FILE_ENDPOINT;
    DevstoreAccepted(isUri, m);
    hide DevCredentials, GetCredentials;
  }

  lemma DefaultsAs(isUri: string -> bool, m: Settings, a: Account)
    requires USE_DEVELOPMENT_STORAGE !in m && DefaultKeys(m) && ParseSettings(isUri, m) == Initialized(a)
    ensures SharedKey(Get(m, ACCOUNT_NAME), Get(m, ACCOUNT_KEY)) == Some(a.credentials)
    ensures a == Account(a.credentials, DefaultServices(m), DefaultSuffix(m), WithoutCredentials(m))
    ensures DEFAULT_ENDPOINTS_PROTOCOL in m
  {
    NamesDiffer();
    hide USE_DEVELOPMENT_STORAGE, DEVELOPMENT_STORAGE_PROXY_URI, DEFAULT_ENDPOINTS_PROTOCOL, ENDPOINT_SUFFIX,
         ACCOUNT_NAME, ACCOUNT_KEY,
         SHARED_ACCESS_SIGNATURE, BLOB_ENDPOINT, QUEUE_ENDPOINT, TABLE_ENDPOINT, FILE_ENDPOINT;
    DefaultsAccepted(isUri, m);
    hide Endpoints.Valid, DefaultServices, GetCredentials, DefaultSuffix;
  }

  lemma ExplicitAs(isUri: string -> bool, m: Settings, a: Account)
    requires USE_DEVELOPMENT_STORAGE !in m && !DefaultKeys(m) && ParseSettings(isUri, m) == Initialized(a)
    ensures GetCredentials(m) == Some(a.credentials)
    ensures a == Account(a.credentials, ExplicitServices(m), "", WithoutCredentials(m))
    ensures DEFAULT_ENDPOINTS_PROTOCOL !in m
  {
    NamesDiffer();
    hide USE_DEVELOPMENT_STORAGE, DEVELOPMENT_STORAGE_PROXY_URI, DEFAULT_ENDPOINTS_PROTOCOL, ENDPOINT_SUFFIX,
         ACCOUNT_NAME, ACCOUNT_KEY,
         SHARED_ACCESS_SIGNATURE, BLOB_ENDPOINT, QUEUE_ENDPOINT, TABLE_ENDPOINT, FILE_ENDPOINT;
    ExplicitAccepted(isUri, m);
    hide GetCredentials;
    ExplicitRead(isUri, m);
    hide Endpoints.Valid, ExplicitServices, ParseSettings;
  }

  /** The account of each of the three readings. */
  lemma AcceptedAs(isUri: string -> bool, m: Settings, a: Account)
    requires ParseSettings(isUri, m) == Initialized(a)
    ensures a.settings == m - {"AccountName", "AccountKey", "SharedAccessSignature"}
    ensures a.endpoints.DevStore? <==> "UseDevelopmentStorage" in m
    ensures a.endpoints.DevStore? ==>
      && a.endpoints.proxy == Get(m, "DevelopmentStorageProxyUri") && a.suffix == ""
      && a.credentials.name == "devstoreaccount1" && a.credentials.sas == ""
      && a.credentials.key == (match Base64.Decode(
        "Eby8vdM02xNOcqFlqUwJPLlmEtlCDXJ1OUzFT50uSRZ6IFsuFq2UVErCz4I6tq/K1SZFPTOtr/KBHBeksoGMGw==")
        case Some(key) => key
        case None => [])
    ensures "DefaultEndpointsProtocol" in m ==>
      && a.credentials.name == Get(m, "AccountName") && a.credentials.sas == ""
      && Base64.Decode(Get(m, "AccountKey")) == Some(a.credentials.key)
      && a.suffix == (if "EndpointSuffix" in m then m["EndpointSuffix"] else "core.windows.net")
    ensures !a.endpoints.DevStore? && "DefaultEndpointsProtocol" !in m ==>
      && AreFor(a.credentials, Get(m, "AccountName"), Get(m, "AccountKey"), Get(m, "SharedAccessSignature"))
      && a.suffix == ""
    ensures !a.endpoints.DevStore? ==>
      && IsFor(m, a.suffix, a.endpoints.blob, "BlobEndpoint", "blob")
      && IsFor(m, a.suffix, a.endpoints.queue, "QueueEndpoint", "queue")
      && IsFor(m, a.suffix, a.endpoints.table, "TableEndpoint", "table")
      && IsFor(m, a.suffix, a.endpoints.file, "FileEndpoint", "file")
  {
    hide ParseSettings, Base64.Decode;
    if USE_DEVELOPMENT_STORAGE in m {
      DevstoreAs(isUri, m, a);
    } else if DefaultKeys(m) {
      DefaultsAs(isUri, m, a);
    } else {
      ExplicitAs(isUri, m, a);
    }
    hide DefaultKeys;
  }

  // ---------- the operations as they run ----------

  /** get_setting: look up and erase. */
  method GetSetting(settings: Settings, key: string) returns (found: bool, value: string, rest: Settings)
    ensures found == (key in settings) && value == Get(settings, key) && rest == settings - {key}
  {
    if key !in settings {
      return false, "", settings;
    }
    return true, settings[key], settings - {key};
  }

  /** Erasing leaves nothing exactly if nothing else was there. */
  lemma NothingLeft(m: Settings, keys: set<string>)
    ensures m - keys == map[] <==> m.Keys <= keys
  {
    if m.Keys <= keys {
      assert m - keys == map[];
    } else {
      var k :| k in m && k !in keys;
      assert k in m - keys;
    }
  }

  method GetCredentialSettings(settings: Settings) returns (credentials: Option<Credentials>, rest: Settings)
    ensures credentials == GetCredentials(settings) && rest == WithoutCredentials(settings)
  {
    NamesDiffer();
    hide ACCOUNT_NAME, ACCOUNT_KEY, SHARED_ACCESS_SIGNATURE, Base64.Decode;
    var _, name, rest1 := GetSetting(settings, ACCOUNT_NAME);
    var _, key, rest2 := GetSetting(rest1, ACCOUNT_KEY);
    var _, sas, rest3 := GetSetting(rest2, SHARED_ACCESS_SIGNATURE);
    rest := rest3;
    if name != "" && key != "" && sas == "" {
      credentials := SharedKey(name, key);
    } else if name == "" && key == "" && sas != "" {
      credentials := Some(Credentials("", [], Token(sas)));
    } else {
      credentials := Some(ANONYMOUS);
    }
  }

  method ParseDevstoreSettings(isUri: string -> bool, given: Settings) returns (r: Outcome)
    ensures r == ParseDevstore(isUri, given)
  {
    NamesDiffer();
    NothingLeft(given, {USE_DEVELOPMENT_STORAGE, DEVELOPMENT_STORAGE_PROXY_URI});
    hide USE_DEVELOPMENT_STORAGE, DEVELOPMENT_STORAGE_PROXY_URI, DevCredentials;
    var found, devstore, settings := GetSetting(given, USE_DEVELOPMENT_STORAGE);
    if found {
      if devstore != "true" {
        return Throws;
      }
      var hasProxy, proxy, rest := GetSetting(settings, DEVELOPMENT_STORAGE_PROXY_URI);
      if hasProxy && !isUri(proxy) {
        return Throws;
      }
      assert rest == given - {USE_DEVELOPMENT_STORAGE, DEVELOPMENT_STORAGE_PROXY_URI};
      if rest == map[] {
        return Build(isUri, Some(DevCredentials()), DevStore(proxy), "");
      }
    }
    return NotInitialized;
  }

  /** The three settings the default reading needs; it stops at the first one that is missing. */
  method GetNeeded(given: Settings) returns (found: bool, scheme: string, name: string, key: string, rest: Settings)
    ensures found <==> {DEFAULT_ENDPOINTS_PROTOCOL, ACCOUNT_NAME, ACCOUNT_KEY} <= given.Keys
    ensures found ==>
      && scheme == Get(given, DEFAULT_ENDPOINTS_PROTOCOL)
      && name == Get(given, ACCOUNT_NAME) && key == Get(given, ACCOUNT_KEY)
      && rest == given - {DEFAULT_ENDPOINTS_PROTOCOL, ACCOUNT_NAME, ACCOUNT_KEY}
  {
    NamesDiffer();
    hide DEFAULT_ENDPOINTS_PROTOCOL, ACCOUNT_NAME, ACCOUNT_KEY;
    name, key := "", "";
    found, scheme, rest := GetSetting(given, DEFAULT_ENDPOINTS_PROTOCOL);
    if found {
      found, name, rest := GetSetting(rest, ACCOUNT_NAME);
    }
    if found {
      found, key, rest := GetSetting(rest, ACCOUNT_KEY);
    }
  }

  lemma DefaultsLeft(given: Settings, left: Settings)
    requires {DEFAULT_ENDPOINTS_PROTOCOL, ACCOUNT_NAME, ACCOUNT_KEY} <= given.Keys
    requires left == given - {DEFAULT_ENDPOINTS_PROTOCOL, ACCOUNT_NAME, ACCOUNT_KEY} - {ENDPOINT_SUFFIX}
                     - {BLOB_ENDPOINT, QUEUE_ENDPOINT, TABLE_ENDPOINT, FILE_ENDPOINT}
    ensures left == map[] <==> DefaultKeys(given)
  {
    hide DEFAULT_ENDPOINTS_PROTOCOL, ACCOUNT_NAME, ACCOUNT_KEY, ENDPOINT_SUFFIX, BLOB_ENDPOINT, QUEUE_ENDPOINT,
         TABLE_ENDPOINT, FILE_ENDPOINT;
    NothingLeft(given, {DEFAULT_ENDPOINTS_PROTOCOL, ACCOUNT_NAME, ACCOUNT_KEY, ENDPOINT_SUFFIX,
                        BLOB_ENDPOINT, QUEUE_ENDPOINT, TABLE_ENDPOINT, FILE_ENDPOINT});
    assert left == given - {DEFAULT_ENDPOINTS_PROTOCOL, ACCOUNT_NAME, ACCOUNT_KEY, ENDPOINT_SUFFIX,
                            BLOB_ENDPOINT, QUEUE_ENDPOINT, TABLE_ENDPOINT, FILE_ENDPOINT};
  }

  method ParseDefaultsSettings(isUri: string -> bool, given: Settings) returns (r: Outcome)
    ensures r == ParseDefaults(isUri, given)
  {
    NamesDiffer();
    hide DEFAULT_ENDPOINTS_PROTOCOL, ACCOUNT_NAME, ACCOUNT_KEY, ENDPOINT_SUFFIX, BLOB_ENDPOINT, QUEUE_ENDPOINT,
         TABLE_ENDPOINT, FILE_ENDPOINT;
    hide Build, SharedKey, DEFAULT_SUFFIX;
    var found, scheme, name, key, settings := GetNeeded(given);
    if !found {
      return NotInitialized;
    }
    var hasSuffix, suffix, rest := GetSetting(settings, ENDPOINT_SUFFIX);
    if !hasSuffix {
      suffix := DEFAULT_SUFFIX;
    }
    var blob, queue, table, file, left := GetEndpoints(rest);
    assert suffix == DefaultSuffix(given);
    assert blob == Get(given, BLOB_ENDPOINT) && queue == Get(given, QUEUE_ENDPOINT);
    assert table == Get(given, TABLE_ENDPOINT) && file == Get(given, FILE_ENDPOINT);
    DefaultsLeft(given, left);
    hide Get, DefaultSuffix, DefaultKeys;
    if left != map[] {
      return NotInitialized;
    }
    r := Build(isUri, SharedKey(name, key),
      Services(if blob == "" then Standard(scheme, name, "blob", suffix) else Given(blob),
               if queue == "" then Standard(scheme, name, "queue", suffix) else Given(queue),
               if table == "" then Standard(scheme, name, "table", suffix) else Given(table),
               if file == "" then Standard(scheme, name, "file", suffix) else Given(file)),
      suffix);
  }

  /** The four endpoint settings, erased one after the other. */
  method GetEndpoints(settings: Settings) returns (blob: string, queue: string, table: string, file: string,
                      rest: Settings)
    ensures blob == Get(settings, BLOB_ENDPOINT) && queue == Get(settings, QUEUE_ENDPOINT)
    ensures table == Get(settings, TABLE_ENDPOINT) && file == Get(settings, FILE_ENDPOINT)
    ensures rest == settings - {BLOB_ENDPOINT, QUEUE_ENDPOINT, TABLE_ENDPOINT, FILE_ENDPOINT}
  {
    NamesDiffer();
    hide BLOB_ENDPOINT, QUEUE_ENDPOINT, TABLE_ENDPOINT, FILE_ENDPOINT;
    var _, b, rest1 := GetSetting(settings, BLOB_ENDPOINT);
    var _, q, rest2 := GetSetting(rest1, QUEUE_ENDPOINT);
    var _, t, rest3 := GetSetting(rest2, TABLE_ENDPOINT);
    var _, f, rest4 := GetSetting(rest3, FILE_ENDPOINT);
    blob, queue, table, file, rest := b, q, t, f, rest4;
  }

  method ParseExplicitSettings(isUri: string -> bool, given: Settings) returns (r: Outcome)
    ensures r == ParseExplicit(isUri, given)
  {
    NamesDiffer();
    hide ACCOUNT_NAME, ACCOUNT_KEY, SHARED_ACCESS_SIGNATURE, BLOB_ENDPOINT, QUEUE_ENDPOINT, TABLE_ENDPOINT,
         FILE_ENDPOINT;
    hide Build, SharedKey, Token;
    var blob, queue, table, file, settings := GetEndpoints(given);
    var credentials, rest := GetCredentialSettings(settings);
    if credentials.None? {
      return Throws;
    }
    NothingLeft(given, {BLOB_ENDPOINT, QUEUE_ENDPOINT, TABLE_ENDPOINT, FILE_ENDPOINT, ACCOUNT_NAME, ACCOUNT_KEY,
      SHARED_ACCESS_SIGNATURE});
    assert rest == given - {BLOB_ENDPOINT, QUEUE_ENDPOINT, TABLE_ENDPOINT, FILE_ENDPOINT, ACCOUNT_NAME, ACCOUNT_KEY,
      SHARED_ACCESS_SIGNATURE};
    if rest == map[] && (blob != "" || queue != "" || table != "" || file != "") {
      return Build(isUri, credentials,
        Services(if blob == "" then Unset else Given(blob), if queue == "" then Unset else Given(queue),
                 if table == "" then Unset else Given(table), if file == "" then Unset else Given(file)),
        "");
    }
    return NotInitialized;
  }

  method ParseConnectionString(isUri: string -> bool, s: string) returns (r: Outcome)
    ensures r == Parse(isUri, s)
  {
    hide Split, SettingsOf, ParseDevstore, ParseDefaults, ParseExplicit, GetCredentials, WithoutCredentials;
    var settings := ParseStringIntoSettings(s);
    if settings.None? {
      return Throws;
    }
    r := ParseDevstoreSettings(isUri, settings.value);
    if r.NotInitialized? {
      r := ParseDefaultsSettings(isUri, settings.value);
    }
    if r.NotInitialized? {
      r := ParseExplicitSettings(isUri, settings.value);
    }
    if !r.Initialized? {
      return Throws;
    }
    var credentials, rest := GetCredentialSettings(settings.value);
    if credentials.None? {
      return Throws;
    }
    r := Initialized(r.account.(settings := rest));
  }

  /** The account object, for to_string may fill in its settings. */
  class CloudStorageAccount {
    const defaultEndpoints: bool
    const credentials: Credentials
    const endpoints: Endpoints
    const endpointSuffix: string
    var settings: Settings

    function View(): Account
      reads this
    {
      Account(credentials, endpoints, endpointSuffix, settings)
    }

    /** From credentials and a choice of scheme. */
    constructor (credentials: Credentials, suffix: string, useHttps: bool)
      ensures View() == Account(credentials, DefaultEndpoints(credentials.name, suffix, useHttps), suffix, map[])
        && defaultEndpoints
      ensures var start := (if useHttps then "https" else "http") + "://" + credentials.name;
        var end := if suffix == "" then "core.windows.net" else suffix;
        && endpoints.Services?
        && endpoints.blob.Primary() == start + "." + "blob" + "." + end
        && endpoints.queue.Primary() == start + "." + "queue" + "." + end
        && endpoints.table.Primary() == start + "." + "table" + "." + end
        && endpoints.file.Primary() == start + "." + "file" + "." + end
    {
      defaultEndpoints := true;
      this.credentials, this.endpoints := credentials, DefaultEndpoints(credentials.name, suffix, useHttps);
      this.endpointSuffix, this.settings := suffix, map[];
    }

    constructor Parsed(a: Account)
      ensures View() == a && !defaultEndpoints
    {
      defaultEndpoints := false;
      this.credentials, this.endpoints := a.credentials, a.endpoints;
      this.endpointSuffix, this.settings := a.suffix, a.settings;
    }

    /** Settings first, in any order of their keys, then the credentials. Only missing settings are filled in. */
    method ToString(exportSecrets: bool) returns (result: string)
      modifies this`settings
      ensures settings ==
        if old(settings) != map[] then old(settings) else Derived(defaultEndpoints, endpoints, endpointSuffix)
      ensures exists keys ::
        && Enumerates(keys, settings)
        && result == Text(View(), keys, exportSecrets)
    {
      hide Derived, CredentialPairs, Piece, Join;
      if settings == map[] {
        settings := Derived(defaultEndpoints, endpoints, endpointSuffix);
      }
      result := SettingsText();
      ghost var keys :| Enumerates(keys, settings)
        && result == if keys == [] then "" else Join(Pieces(SettingPairs(settings, keys)), ';');
      result := AppendPairs(result, CredentialPairs(View(), exportSecrets), SettingPairs(settings, keys));
      assert Enumerates(keys, settings);
    }

    /** The credentials, each pair after a semicolon, behind the text written so far. */
    method AppendPairs(start: string, pairs: seq<(string, string)>, ghost text: seq<(string, string)>)
      returns (result: string)
      requires start == if text == [] then "" else Join(Pieces(text), ';')
      ensures result == if text == [] then Tail(pairs) else Join(Pieces(text + pairs), ';')
    {
      hide Piece, Join;
      result := start;
      assert text + pairs[..0] == text;
      for i := 0 to |pairs|
        invariant result == if text == [] then Tail(pairs[..i]) else Join(Pieces(text + pairs[..i]), ';')
      {
        if text != [] {
          JoinAppend(Pieces(text + pairs[..i]), Piece(pairs[i]), ';');
          assert Pieces(text + pairs[..i]) + [Piece(pairs[i])] == Pieces(text + pairs[..i + 1]);
        }
        assert pairs[..i + 1][..i] == pairs[..i];
        result := result + ";" + Piece(pairs[i]);
      }
      assert pairs[..|pairs|] == pairs;
    }

    /** The loop over the settings. */
    method SettingsText() returns (result: string)
      ensures exists keys ::
        && Enumerates(keys, settings)
        && result == if keys == [] then "" else Join(Pieces(SettingPairs(settings, keys)), ';')
    {
      hide Piece;
      result := "";
      ghost var keys: seq<string> := [];
      var left, semicolon := settings.Keys, false;
      while left != {}
        invariant left <= settings.Keys && (forall k :: k in settings <==> k in keys || k in left)
        invariant forall i :: 0 <= i < |keys| ==> keys[i] in settings && keys[i] !in left
        invariant forall i, j :: 0 <= i < j < |keys| ==> keys[i] != keys[j]
        invariant result == if keys == [] then "" else Join(Pieces(SettingPairs(settings, keys)), ';')
        invariant semicolon == (keys != [])
        decreases left
      {
        var key :| key in left;
        ghost var before := Pieces(SettingPairs(settings, keys));
        left := left - {key};
        if semicolon {
          JoinAppend(before, Piece((key, settings[key])), ';');
          result := result + ";";
        }
        result := result + Piece((key, settings[key]));
        semicolon := true;
        keys := keys + [key];
        assert Pieces(SettingPairs(settings, keys)) == before + [Piece((key, settings[key]))];
      }
      assert Enumerates(keys, settings);
    }
  }
}
