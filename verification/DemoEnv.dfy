/** `ensure_demo_env` of scripts/generate_demo_env.py: reuse a valid file, or write a new one through a temporary
    file that replaces the old one in a single step. */
module DemoEnv {
  import opened Prelude
  import opened PyDict
  import opened EnvFile

  // ---- validate_values ----

  const REQUIRED_KEYS: set<string> := {
    "AUTH_REQUIRED", "DATABASE_URL", "INTERNAL_API_TOKEN", "MINIO_ROOT_PASSWORD", "NODYRA_BIND_HOST",
    "NODYRA_MCP_URL", "NODYRA_SECRET_KEY", "POSTGRES_PASSWORD", "SECRET_KEY"
  }
  const SECRET_KEYS: seq<string> :=
    ["POSTGRES_PASSWORD", "MINIO_ROOT_PASSWORD", "INTERNAL_API_TOKEN", "NODYRA_SECRET_KEY", "SECRET_KEY"]
  const MINIMUM_SECRET := 32
  const LOOPBACK_HOSTS: set<string> := {"127.0.0.1", "::1", "localhost"}

  datatype Refusal =
    | MissingKeys(keys: set<string>)
    | NotLoopback
    | AuthNotDisabled
    | ShortSecret(key: string)

  /** ASCII lower case: no other character lowers to one the compared names are written with. */
  function Lower(s: string): string {
    seq(|s|, i requires 0 <= i < |s| => if 'A' <= s[i] <= 'Z' then s[i] + 32 as char else s[i])
  }

  /** `values.get(key)`, with "" for a missing key: both are refused alike. */
  function Field(values: Dict<string>, key: string): string {
    var v := Get(values, key);
    if v.Some? then v.value else ""
  }

  function ShortSecrets(values: Dict<string>, keys: seq<string>): Option<string> {
    if keys == [] then None
    else if |Field(values, keys[0])| < MINIMUM_SECRET then Some(keys[0])
    else ShortSecrets(values, keys[1..])
  }

  /** `validate_values`: None, or the first complaint. */
  function Complaint(values: Dict<string>): Option<Refusal> {
    var missing := set k | k in REQUIRED_KEYS && Field(values, k) == "";
    if missing != {} then Some(MissingKeys(missing))
    else if Lower(Field(values, "NODYRA_BIND_HOST")) !in LOOPBACK_HOSTS then Some(NotLoopback)
    else if Lower(Field(values, "AUTH_REQUIRED")) != "false" then Some(AuthNotDisabled)
    else
      var short := ShortSecrets(values, SECRET_KEYS);
      if short.Some? then Some(ShortSecret(short.value)) else None
  }

  lemma {:induction false} ShortSecretsFinds(values: Dict<string>, keys: seq<string>)
    ensures ShortSecrets(values, keys) == None <==> forall k :: k in keys ==> |Field(values, k)| >= MINIMUM_SECRET
    ensures ShortSecrets(values, keys).Some? ==> |Field(values, ShortSecrets(values, keys).value)| < MINIMUM_SECRET
  {
    if keys != [] {
      ShortSecretsFinds(values, keys[1..]);
      assert forall k :: k in keys <==> k == keys[0] || k in keys[1..];
    }
  }

  /** What an accepted file says: every required key has a value, it binds to the loopback, it disables sign-in, and no
      secret is short. A file is refused exactly when it does not say so. */
  lemma AcceptedExactly(values: Dict<string>)
    ensures Complaint(values) == None <==>
            && (forall k :: k in REQUIRED_KEYS ==> Field(values, k) != "")
            && Lower(Field(values, "NODYRA_BIND_HOST")) in LOOPBACK_HOSTS
            && Lower(Field(values, "AUTH_REQUIRED")) == "false"
            && (forall k :: k in SECRET_KEYS ==> |Field(values, k)| >= MINIMUM_SECRET)
  {
    ShortSecretsFinds(values, SECRET_KEYS);
    var missing := set k | k in REQUIRED_KEYS && Field(values, k) == "";
    assert forall k :: k in missing <==> k in REQUIRED_KEYS && Field(values, k) == "";
  }

  /** Lower-casing changes the ASCII capitals and nothing else. */
  lemma LowerExact(s: string)
    ensures |Lower(s)| == |s|
    ensures forall i :: 0 <= i < |s| ==>
      if 'A' <= s[i] <= 'Z' then Lower(s)[i] as int == s[i] as int + 32 else Lower(s)[i] == s[i]
  {
  }

  lemma ShortCons(values: Dict<string>, key: string, rest: seq<string>)
    ensures ShortSecrets(values, [key] + rest) ==
            if |Field(values, key)| < 32 then Some(key) else ShortSecrets(values, rest)
  {
    assert ([key] + rest)[1..] == rest;
  }

  /** The first of the five that is short. */
  function FirstShort(values: Dict<string>): Option<string> {
    if |Field(values, "POSTGRES_PASSWORD")| < 32 then Some("POSTGRES_PASSWORD")
    else if |Field(values, "MINIO_ROOT_PASSWORD")| < 32 then Some("MINIO_ROOT_PASSWORD")
    else if |Field(values, "INTERNAL_API_TOKEN")| < 32 then Some("INTERNAL_API_TOKEN")
    else if |Field(values, "NODYRA_SECRET_KEY")| < 32 then Some("NODYRA_SECRET_KEY")
    else if |Field(values, "SECRET_KEY")| < 32 then Some("SECRET_KEY")
    else None
  }

  lemma FirstShortFound(values: Dict<string>)
    ensures ShortSecrets(values, SECRET_KEYS) == FirstShort(values)
  {
    var d := ["NODYRA_SECRET_KEY"] + (["SECRET_KEY"] + []);
    var c := ["INTERNAL_API_TOKEN"] + d;
    var b := ["MINIO_ROOT_PASSWORD"] + c;
    assert SECRET_KEYS == ["POSTGRES_PASSWORD"] + b;
    ShortCons(values, "POSTGRES_PASSWORD", b);
    ShortCons(values, "MINIO_ROOT_PASSWORD", c);
    ShortCons(values, "INTERNAL_API_TOKEN", d);
    ShortCons(values, "NODYRA_SECRET_KEY", ["SECRET_KEY"] + []);
    ShortCons(values, "SECRET_KEY", []);
  }

  predicate Required(key: string) {
    key in {"AUTH_REQUIRED", "DATABASE_URL", "INTERNAL_API_TOKEN", "MINIO_ROOT_PASSWORD", "NODYRA_BIND_HOST",
            "NODYRA_MCP_URL", "NODYRA_SECRET_KEY", "POSTGRES_PASSWORD", "SECRET_KEY"}
  }

  /** Which complaint a refused file meets: the keys without a value, all of them; else its host; else that it asks for
      sign-in; else the first short secret. */
  lemma ComplaintExactly(values: Dict<string>)
    ensures var c, host, auth := Complaint(values), Lower(Field(values, "NODYRA_BIND_HOST")),
                                 Lower(Field(values, "AUTH_REQUIRED"));
      var complete := forall k :: Required(k) ==> Field(values, k) != "";
      var local := host == "127.0.0.1" || host == "::1" || host == "localhost";
      && (!complete ==> c.Some? && c.value.MissingKeys?
                        && forall k :: k in c.value.keys <==> Required(k) && Field(values, k) == "")
      && (complete && !local ==> c == Some(NotLoopback))
      && (complete && local && auth != "false" ==> c == Some(AuthNotDisabled))
      && (complete && local && auth == "false" ==>
            c == if FirstShort(values) == None then None else Some(ShortSecret(FirstShort(values).value)))
  {
    FirstShortFound(values);
    MissingAre(values);
  }

  lemma MissingAre(values: Dict<string>)
    ensures var missing := set k | k in REQUIRED_KEYS && Field(values, k) == "";
      && (missing == {} <==> forall k :: Required(k) ==> Field(values, k) != "")
      && forall k :: k in missing <==> Required(k) && Field(values, k) == ""
  {
    var missing := set k | k in REQUIRED_KEYS && Field(values, k) == "";
    forall k ensures k in missing <==> Required(k) && Field(values, k) == "" {
    }
    if missing == {} {
      forall k | Required(k) ensures Field(values, k) != "" {
        assert k !in missing;
      }
    }
  }

  // ---- generated_values ----

  predicate Alphanumeric(s: string) {
    forall i :: 0 <= i < |s| ==> 'a' <= s[i] <= 'z' || 'A' <= s[i] <= 'Z' || '0' <= s[i] <= '9'
  }

  /** The random strings one call draws: the Postgres and MinIO passwords, the internal token, the secret key. */
  datatype Secrets = Secrets(postgres: string, minio: string, internalToken: string, secretKey: string) {
    predicate Drawn() {
      && |postgres| == 48 && |minio| == 48 && |internalToken| == 64 && |secretKey| == 64
      && Alphanumeric(postgres) && Alphanumeric(minio) && Alphanumeric(internalToken) && Alphanumeric(secretKey)
    }
  }

  function Generated(s: Secrets): Dict<string> {
    [ ("COMPOSE_PROJECT_NAME", "nodyra-demo"),
      ("NODYRA_BIND_HOST", "127.0.0.1"),
      ("POSTGRES_PASSWORD", s.postgres),
      ("MINIO_ROOT_USER", "nodyra"),
      ("MINIO_ROOT_PASSWORD", s.minio),
      ("INTERNAL_API_TOKEN", s.internalToken),
      ("NODYRA_SECRET_KEY", s.secretKey),
      ("SECRET_KEY", s.secretKey),
      ("AUTH_REQUIRED", "false"),
      ("AUTH_ALLOW_REGISTRATION", "false"),
      ("DATABASE_URL", "postgresql+asyncpg://nodyra:" + s.postgres + "@127.0.0.1:5432/nodyra"),
      ("NODYRA_MCP_URL", "http://127.0.0.1:8000/mcp") ]
  }

  /** The keys have different lengths, but for two that differ in their first letter. */
  lemma GeneratedKeysDistinct(s: Secrets)
    ensures Distinct(Generated(s)) && |Generated(s)| == 12
  {
    var v := Generated(s);
    var lengths := [20, 16, 17, 15, 19, 18, 17, 10, 13, 23, 12, 14];
    forall i | 0 <= i < 12 ensures |v[i].0| == lengths[i] {
    }
    assert v[2].0[0] == 'P' && v[6].0[0] == 'N';
    assert forall i, j :: 0 <= i < j < 12 && lengths[i] == lengths[j] ==> i == 2 && j == 6;
    forall i, j | 0 <= i < j < 12 ensures v[i].0 != v[j].0 {
      assert lengths[i] == lengths[j] ==> i == 2 && j == 6;
    }
  }

  predicate PlainKey(k: string) {
    k != "" && forall i :: 0 <= i < |k| ==> 'A' <= k[i] <= 'Z' || k[i] == '_'
  }

  lemma PlainKeyGood(k: string)
    requires PlainKey(k)
    ensures GoodKey(k)
  {
  }

  lemma ServiceKeysPlain()
    ensures PlainKey("COMPOSE_PROJECT_NAME") && PlainKey("NODYRA_BIND_HOST") && PlainKey("POSTGRES_PASSWORD")
    ensures PlainKey("MINIO_ROOT_USER") && PlainKey("MINIO_ROOT_PASSWORD") && PlainKey("DATABASE_URL")
  {
  }

  lemma ApplicationKeysPlain()
    ensures PlainKey("INTERNAL_API_TOKEN") && PlainKey("NODYRA_SECRET_KEY") && PlainKey("SECRET_KEY")
    ensures PlainKey("AUTH_REQUIRED") && PlainKey("AUTH_ALLOW_REGISTRATION") && PlainKey("NODYRA_MCP_URL")
  {
  }

  lemma GeneratedKeysGood(s: Secrets, i: nat)
    requires i < |Generated(s)|
    ensures GoodKey(Generated(s)[i].0)
  {
    ServiceKeysPlain();
    ApplicationKeysPlain();
    PlainKeyGood(Generated(s)[i].0);
  }

  lemma AlphanumericGood(s: string)
    requires Alphanumeric(s)
    ensures GoodValue(s)
  {
  }

  lemma Enclosed(before: string, middle: string, after: string)
    requires before != "" && after != "" && GoodValue(before) && GoodValue(after) && SingleLine(middle)
    ensures GoodValue(before + middle + after)
  {
  }

  lemma UrlStartGood()
    ensures GoodValue("postgresql+asyncpg://nodyra:")
  {
  }

  lemma UrlEndGood()
    ensures GoodValue("@127.0.0.1:5432/nodyra")
  {
  }

  lemma DatabaseUrlGood(password: string)
    requires Alphanumeric(password)
    ensures GoodValue("postgresql+asyncpg://nodyra:" + password + "@127.0.0.1:5432/nodyra")
  {
    UrlStartGood();
    UrlEndGood();
    AlphanumericGood(password);
    Enclosed("postgresql+asyncpg://nodyra:", password, "@127.0.0.1:5432/nodyra");
  }

  lemma FixedValuesGood()
    ensures GoodValue("nodyra-demo") && GoodValue("127.0.0.1") && GoodValue("nodyra") && GoodValue("false")
  {
  }

  lemma McpUrlGood()
    ensures GoodValue("http://127.0.0.1:8000/mcp")
  {
  }

  lemma GeneratedRepresentable(s: Secrets)
    requires s.Drawn()
    ensures Representable(Generated(s))
  {
    GeneratedKeysDistinct(s);
    AlphanumericGood(s.postgres);
    AlphanumericGood(s.minio);
    AlphanumericGood(s.internalToken);
    AlphanumericGood(s.secretKey);
    DatabaseUrlGood(s.postgres);
    FixedValuesGood();
    McpUrlGood();
    forall i | 0 <= i < |Generated(s)| ensures GoodKey(Generated(s)[i].0) && GoodValue(Generated(s)[i].1) {
      GeneratedKeysGood(s, i);
    }
  }

  /** Every value the generated file carries. */
  lemma GeneratedFields(s: Secrets)
    ensures var v := Generated(s);
      && Field(v, "NODYRA_BIND_HOST") == "127.0.0.1" && Field(v, "AUTH_REQUIRED") == "false"
      && Field(v, "POSTGRES_PASSWORD") == s.postgres && Field(v, "MINIO_ROOT_PASSWORD") == s.minio
      && Field(v, "INTERNAL_API_TOKEN") == s.internalToken && Field(v, "NODYRA_SECRET_KEY") == s.secretKey
      && Field(v, "SECRET_KEY") == s.secretKey && Field(v, "NODYRA_MCP_URL") == "http://127.0.0.1:8000/mcp"
      && Field(v, "DATABASE_URL") == "postgresql+asyncpg://nodyra:" + s.postgres + "@127.0.0.1:5432/nodyra"
      && Field(v, "COMPOSE_PROJECT_NAME") == "nodyra-demo" && Field(v, "MINIO_ROOT_USER") == "nodyra"
      && Field(v, "AUTH_ALLOW_REGISTRATION") == "false" && |v| == 12
  {
    GeneratedKeysDistinct(s);
    var v := Generated(s);
    GetAt(v, 0);
    GetAt(v, 3);
    GetAt(v, 9);
    GetAt(v, 1);
    GetAt(v, 2);
    GetAt(v, 4);
    GetAt(v, 5);
    GetAt(v, 6);
    GetAt(v, 7);
    GetAt(v, 8);
    GetAt(v, 10);
    GetAt(v, 11);
  }

  lemma GeneratedAccepted(s: Secrets)
    requires s.Drawn()
    ensures Complaint(Generated(s)) == None
  {
    var v := Generated(s);
    GeneratedFields(s);
    assert forall k :: k in REQUIRED_KEYS ==> Field(v, k) != "";
    assert Lower("127.0.0.1") == "127.0.0.1";
    assert Lower("false") == "false";
    assert forall k :: k in SECRET_KEYS ==> |Field(v, k)| >= MINIMUM_SECRET;
    AcceptedExactly(v);
  }

  // ---- ensure_demo_env ----

  datatype EnvError = Symlink | Unreadable(parse: ParseError) | Refused(why: Refusal) | Interrupted

  /** The step, if any, at which the operating system or a signal raises. */
  datatype Fault = NoFault | AtCreate | AtChmod | AtWrite(written: nat) | AtSync | AtReplace | AfterReplace

  /** The file at the path parses, and the result passes `validate_values`. */
  predicate Usable(content: Option<string>) {
    content.Some? && Parsed(content.value).Ok? && Complaint(Parsed(content.value).value) == None
  }

  /** Why an existing file is not kept: it does not parse, or what it says is refused. */
  function Complain(content: string): Option<EnvError> {
    match Parsed(content)
    case Err(e) => Some(Unreadable(e))
    case Ok(values) => if Complaint(values).Some? then Some(Refused(Complaint(values).value)) else None
  }

  /** A freshly generated file is complete and usable. */
  lemma FreshUsable(s: Secrets)
    requires s.Drawn()
    ensures Parsed(Render(Generated(s))) == Ok(Generated(s)) && Usable(Some(Render(Generated(s))))
  {
    GeneratedRepresentable(s);
    GeneratedAccepted(s);
    RenderParseRoundTrip(Generated(s));
  }

  /** The path, the temporary file beside it, and every content a crash could have left at the path so far. */
  class DemoEnvFile {
    const isSymlink: bool
    var content: Option<string>
    var temporary: Option<string>
    ghost var images: seq<Option<string>>

    constructor (isSymlink: bool, content: Option<string>)
      ensures this.isSymlink == isSymlink && this.content == content && temporary == None && images == [content]
    {
      this.isSymlink := isSymlink;
      this.content := content;
      this.temporary := None;
      this.images := [content];
    }

    /** One file-system step: what the path and the temporary file hold afterwards. */
    method Step(content: Option<string>, temporary: Option<string>)
      modifies this
      ensures this.content == content && this.temporary == temporary && images == old(images) + [content]
    {
      this.content := content;
      this.temporary := temporary;
      images := images + [content];
    }

    method ReadExisting() returns (error: Option<EnvError>)
      requires content.Some?
      ensures error == None <==> Usable(content)
      ensures error == Complain(content.value)
    {
      var parsed := ParseEnvFile(content.value);
      if parsed.Err? {
        return Some(Unreadable(parsed.error));
      }
      var complaint := Complaint(parsed.value);
      error := if complaint.Some? then Some(Refused(complaint.value)) else None;
    }

    /** Writes and syncs the temporary file, then replaces the path with it. */
    method WriteThrough(text: string, fault: Fault) returns (raised: bool)
      modifies this
      ensures raised <==> fault != NoFault
      ensures content == (if fault in {NoFault, AfterReplace} then Some(text) else old(content))
      ensures fault in {NoFault, AfterReplace} ==> temporary == None
      ensures |images| >= |old(images)| && images[..|old(images)|] == old(images)
      ensures forall i :: |old(images)| <= i < |images| ==> images[i] == old(content) || images[i] == Some(text)
    {
      if fault == AtCreate {
        return true;
      }
      Step(content, Some(""));
      if fault == AtChmod {
        return true;
      }
      if fault.AtWrite? {
        Step(content, Some(text[..if fault.written <= |text| then fault.written else |text|]));
        return true;
      }
      Step(content, Some(text));
      if fault == AtSync || fault == AtReplace {
        return true;
      }
      Step(Some(text), None);
      raised := fault == AfterReplace;
    }

    /** `ensure_demo_env`: Ok(true) when a new file was written, Ok(false) when the old one was kept. */
    method EnsureDemoEnv(force: bool, secrets: Secrets, fault: Fault) returns (result: Result<bool, EnvError>)
      requires secrets.Drawn()
      modifies this
      // A normal return leaves a usable file; nothing else does so by accident.
      ensures result.Ok? ==> Usable(content)
      ensures result == Ok(false) <==> !isSymlink && !force && Usable(old(content))
      ensures result == Ok(true) <==> !isSymlink && (force || old(content) == None) && fault == NoFault
      ensures result == Ok(true) ==> content == Some(Render(Generated(secrets)))
      // A refused file is not touched, and only a signal after the replacement may fail and still leave the new file.
      ensures result != Ok(true) && content != old(content) ==>
                fault == AfterReplace && content == Some(Render(Generated(secrets)))
      ensures !force && old(content).Some? ==> content == old(content)
      ensures isSymlink ==> result == Err(Symlink) && content == old(content)
      ensures !isSymlink && !force && old(content).Some? && result.Err? ==>
                Complain(old(content).value) == Some(result.error)
      ensures !isSymlink && (force || old(content).None?) && result.Err? ==> result == Err(Interrupted)
      // The temporary file is gone, whatever happened.
      ensures temporary == None || temporary == old(temporary)
      // At every crash point the path holds the old file or the complete new one.
      ensures |images| >= |old(images)| && images[..|old(images)|] == old(images)
      ensures forall i :: |old(images)| <= i < |images| ==>
                images[i] == old(content) || images[i] == Some(Render(Generated(secrets)))
    {
      if isSymlink {
        return Err(Symlink);
      }
      if content.Some? && !force {
        var error := ReadExisting();
        return if error.Some? then Err(error.value) else Ok(false);
      }
      var values := Generated(secrets);
      FreshUsable(secrets);
      assert Complaint(values) == None;
      var raised := WriteThrough(Render(values), fault);
      if raised {
        Step(content, None);
        return Err(Interrupted);
      }
      result := Ok(true);
    }
  }
}
