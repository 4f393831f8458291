/**
 * The settings logic of the backend: the validator that turns the
 * `CORS_ORIGINS` value into a list of origins, the validator for the MongoDB
 * credentials, and the connection string built from host, port and
 * credentials. Reading the environment is left to the caller.
 */
module Settings {
  import opened Wrappers
  import opened Text

  // ---------------------------------------------------------------- CORS

  /** The raw value handed to the validator: a string, a list of strings, or anything else. */
  datatype Raw = RawStr(s: string) | RawList(items: seq<string>) | RawOther

  /**
   * `assemble_cors_origins`: a string that does not start with `[` becomes its
   * comma-separated pieces, each stripped; a list, or a string that does start
   * with `[`, passes through unchanged; anything else is a `ValueError`
   * carrying the value.
   */
  function AssembleCorsOrigins(v: Raw): (r: Result<Raw, Raw>)
    ensures v.RawOther? <==> r.Err?
    ensures r.Err? ==> r.error == v
    ensures (v.RawList? || (v.RawStr? && StartsWith(v.s, "["))) ==> r == Ok(v)
    ensures v.RawStr? && !StartsWith(v.s, "[") ==> r.Ok? && r.value.RawList?
  {
    match v
    case RawStr(s) =>
      if !StartsWith(s, "[") then Ok(RawList(StripAll(Split(s, ',')))) else Ok(v)
    case RawList(_) => Ok(v)
    case RawOther => Err(v)
  }

  /** Stripping keeps only characters of the string it strips. */
  lemma {:induction false} StripKeepsOut(x: string, c: char)
    requires c !in x
    ensures c !in Strip(x)
  {
    var r := Strip(x);
    var i: nat :| TrimAt(r, x, i);
    assert forall j :: 0 <= j < |r| ==> r[j] == x[i + j];
  }

  /**
   * A comma-separated origin string yields one origin per piece between
   * commas, stripped: no origin holds a comma, and stripping it again changes
   * nothing.
   */
  lemma {:induction false} CorsPieces(s: string)
    requires !StartsWith(s, "[")
    ensures var r := AssembleCorsOrigins(RawStr(s)).value.items;
      && |r| == |Split(s, ',')|
      && forall k :: 0 <= k < |r| ==> ',' !in r[k] && Strip(r[k]) == r[k]
  {
    var pieces := Split(s, ',');
    var r := StripAll(pieces);
    forall k | 0 <= k < |r|
      ensures ',' !in r[k] && Strip(r[k]) == r[k]
    {
      StripKeepsOut(pieces[k], ',');
      StripIdempotent(pieces[k]);
    }
  }

  /** A single origin without commas becomes a one-element list. */
  lemma {:induction false} CorsSingleOrigin(s: string)
    requires !StartsWith(s, "[") && ',' !in s
    ensures AssembleCorsOrigins(RawStr(s)) == Ok(RawList([Strip(s)]))
  {
    assert Split(s, ',') == [s];
    assert StripAll([s]) == [Strip(s)];
  }

  /** Cleaning twice is cleaning once: the list the validator returns passes it unchanged. */
  lemma {:induction false} CorsIdempotent(v: Raw)
    requires AssembleCorsOrigins(v).Ok?
    ensures AssembleCorsOrigins(AssembleCorsOrigins(v).value) == AssembleCorsOrigins(v)
  {
  }

  // ---------------------------------------------------------------- MongoDB

  /** Python truthiness of an optional string: present and non-empty. */
  predicate Truthy(o: Option<string>) {
    o.Some? && o.value != ""
  }

  /** `check_mongo_credentials`: `v or ""`. */
  function CheckMongoCredentials(v: Option<string>): (r: string)
    ensures r == "" <==> !Truthy(v)
    ensures r != "" ==> v == Some(r)
  {
    if Truthy(v) then v.value else ""
  }

  /** The `user:password@` part of the connection string: present only when both credentials are. */
  function UserInfo(user: Option<string>, password: Option<string>): (u: string)
    ensures u == "" <==> !(Truthy(user) && Truthy(password))
  {
    if Truthy(user) && Truthy(password) then user.value + ":" + password.value + "@" else ""
  }

  /**
   * `MONGO_CONNECTION_STRING`: `mongodb://`, the credentials when both are
   * present and non-empty, then host and port.
   */
  function MongoConnectionString(user: Option<string>, password: Option<string>, host: string, port: int): string {
    "mongodb://" + UserInfo(user, password) + host + ":" + IntToString(port)
  }

  /** With both credentials the string carries them; without, it is only host and port. */
  lemma {:induction false} ConnectionStringForms(user: Option<string>, password: Option<string>, host: string, port: int)
    ensures Truthy(user) && Truthy(password) ==>
      MongoConnectionString(user, password, host, port) == "mongodb://" + user.value + ":" + password.value + "@" + host + ":" + IntToString(port)
    ensures !(Truthy(user) && Truthy(password)) ==>
      MongoConnectionString(user, password, host, port) == "mongodb://" + host + ":" + IntToString(port)
  {
    if Truthy(user) && Truthy(password) {
      assert "mongodb://" + (user.value + ":" + password.value + "@") + host == "mongodb://" + user.value + ":" + password.value + "@" + host;
    } else {
      assert "mongodb://" + "" == "mongodb://";
    }
  }

  /**
   * Running the credentials through their validator first does not change the
   * connection string: a missing and an empty credential act alike.
   */
  lemma {:induction false} ValidatedCredentialsSameConnection(user: Option<string>, password: Option<string>, host: string, port: int)
    ensures MongoConnectionString(Some(CheckMongoCredentials(user)), Some(CheckMongoCredentials(password)), host, port)
      == MongoConnectionString(user, password, host, port)
  {
  }

  /** Without one of the two credentials, the other plays no part. */
  lemma {:induction false} OneCredentialIsIgnored(user: Option<string>, user': Option<string>, host: string, port: int)
    ensures MongoConnectionString(user, None, host, port) == MongoConnectionString(user', Some(""), host, port)
    ensures MongoConnectionString(None, user, host, port) == MongoConnectionString(Some(""), user', host, port)
  {
  }
}
