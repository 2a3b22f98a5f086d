/** Secrets encrypted at rest as v<version>:<iv>:<tag>:<data> in hex, and the rotation of their keys.

    The cipher, the random ivs and the runtime's reading of numbers are parameters. Key lookup reads the
    environment at every call, so a rotation is a change of environment between calls. */
module Secrets {
  import opened Prelude

  type Bytes = seq<Byte>

  const LEGACY_KEY_VERSION := 1
  const KEY_HEX_LENGTH := 64

  datatype Sealed = Sealed(data: Bytes, tag: Bytes)

  /** number reads an integer the way the runtime does; open fails on a bad tag, iv or key. */
  datatype Runtime = Runtime(
    seal: (Bytes, Bytes, Bytes) -> Sealed,
    open: (Bytes, Bytes, Sealed) -> Option<Bytes>,
    number: string -> Option<int>)

  /** The version setting, the current key and the KEY_V<n> settings; an empty setting counts as missing. */
  datatype Env = Env(version: string, key: string, keys: map<nat, string>)

  datatype Error =
    | BadVersionSetting
    | BadKeySetting
    | KeyMissing(version: int)
    | BadFormat
    | BadBlobVersion
    | Rejected

  datatype Result<T> = Ok(value: T) | Err(error: Error)

  // ---------------------------------------------------------------------------------------------
  // Text
  // ---------------------------------------------------------------------------------------------

  function Decimal(n: nat): string {
    if n < 10 then [HexChar(n)] else Decimal(n / 10) + [HexChar(n % 10)]
  }

  function ToHex(bytes: Bytes): string {
    if bytes == [] then "" else [HexChar(bytes[0] / 16), HexChar(bytes[0] % 16)] + ToHex(bytes[1..])
  }

  /** Reads hex pairs up to the first that is not one. */
  function FromHex(s: string): Bytes {
    if |s| >= 2 && IsHexChar(s[0]) && IsHexChar(s[1])
    then [16 * HexValue(s[0]) + HexValue(s[1])] + FromHex(s[2..])
    else []
  }

  function Split(s: string): (r: seq<string>)
    ensures r != []
  {
    if s == "" then [""]
    else
      var rest := Split(s[1..]);
      if s[0] == ':' then [""] + rest else [[s[0]] + rest[0]] + rest[1..]
  }

  predicate NoColon(s: string) {
    forall k | 0 <= k < |s| :: s[k] != ':'
  }

  lemma {:induction false} SplitFirst(a: string, s: string)
    requires NoColon(a)
    ensures Split(a + ":" + s) == [a] + Split(s)
  {
    var text := a + ":" + s;
    if a == "" {
      assert text[1..] == s;
    } else {
      SplitFirst(a[1..], s);
      assert text[0] == a[0] && text[0] != ':';
      assert text[1..] == a[1..] + ":" + s;
      assert ([a[1..]] + Split(s))[1..] == Split(s);
      assert [a[0]] + a[1..] == a;
    }
  }

  lemma {:induction false} SplitWhole(a: string)
    requires NoColon(a)
    ensures Split(a) == [a]
  {
    if a != "" {
      SplitWhole(a[1..]);
      assert [a[0]] + a[1..] == a;
    }
  }

  lemma {:induction false} DecimalHasNoColon(n: nat)
    ensures NoColon(Decimal(n)) && Decimal(n) != ""
  {
    if n >= 10 {
      DecimalHasNoColon(n / 10);
    }
  }

  function ReadDecimal(s: string): int {
    if s == "" then 0 else 10 * ReadDecimal(s[..|s| - 1]) + (s[|s| - 1] as int - '0' as int)
  }

  /** The version in a blob is written in decimal digits without leading zeros. */
  lemma {:induction false} DecimalReads(n: nat)
    ensures ReadDecimal(Decimal(n)) == n && forall c | c in Decimal(n) :: '0' <= c <= '9'
    ensures n > 0 ==> Decimal(n) != "" && Decimal(n)[0] != '0'
  {
    if n >= 10 {
      DecimalReads(n / 10);
    } else {
      assert Decimal(n)[..0] == "";
    }
  }

  lemma {:induction false} HexRoundTrip(bytes: Bytes)
    ensures NoColon(ToHex(bytes)) && FromHex(ToHex(bytes)) == bytes
    ensures ToHex(bytes) == "" <==> bytes == []
  {
    if bytes != [] {
      HexRoundTrip(bytes[1..]);
      HexReadsBack(bytes[0] / 16);
      HexReadsBack(bytes[0] % 16);
      assert ToHex(bytes)[2..] == ToHex(bytes[1..]);
    }
  }

  // ---------------------------------------------------------------------------------------------
  // Keys
  // ---------------------------------------------------------------------------------------------

  function ParseKey(hex: string): Result<Bytes> {
    if |hex| == KEY_HEX_LENGTH && forall c | c in hex :: IsHexChar(c) then Ok(FromHex(hex)) else Err(BadKeySetting)
  }

  function CurrentVersion(rt: Runtime, env: Env): Result<nat> {
    if env.version == "" then Ok(LEGACY_KEY_VERSION)
    else match rt.number(env.version)
      case Some(v) => if v >= 1 then Ok(v) else Err(BadVersionSetting)
      case None => Err(BadVersionSetting)
  }

  function KeyFor(rt: Runtime, env: Env, version: int): Result<Bytes> {
    match CurrentVersion(rt, env)
    case Err(error) => Err(error)
    case Ok(current) =>
      if version == current then ParseKey(env.key)
      else if version !in env.keys || env.keys[version] == "" then Err(KeyMissing(version))
      else ParseKey(env.keys[version])
  }

  // ---------------------------------------------------------------------------------------------
  // Encrypting and decrypting
  // ---------------------------------------------------------------------------------------------

  /** What a row stores. */
  datatype Secret = Secret(blob: string, keyVersion: nat)

  function Parts(iv: Bytes, sealed: Sealed): string {
    ToHex(iv) + ":" + ToHex(sealed.tag) + ":" + ToHex(sealed.data)
  }

  function Encrypt(rt: Runtime, env: Env, iv: Bytes, plaintext: Bytes): Result<Secret> {
    match CurrentVersion(rt, env)
    case Err(error) => Err(error)
    case Ok(version) =>
      match KeyFor(rt, env, version)
      case Err(error) => Err(error)
      case Ok(key) => Ok(Secret("v" + Decimal(version) + ":" + Parts(iv, rt.seal(key, iv, plaintext)), version))
  }

  predicate Versioned(parts: seq<string>) {
    |parts| == 4 && parts[0] != "" && parts[0][0] == 'v'
  }

  function Open(rt: Runtime, env: Env, version: int, ivHex: string, tagHex: string, dataHex: string): Result<Bytes> {
    if ivHex == "" || tagHex == "" || dataHex == "" then Err(BadFormat)
    else match KeyFor(rt, env, version)
      case Err(error) => Err(error)
      case Ok(key) =>
        match rt.open(key, FromHex(ivHex), Sealed(FromHex(dataHex), FromHex(tagHex)))
        case Some(plaintext) => Ok(plaintext)
        case None => Err(Rejected)
  }

  function Decrypt(rt: Runtime, env: Env, stored: string, rowVersion: Option<int>): Result<Bytes> {
    var parts := Split(stored);
    if Versioned(parts) then
      match rt.number(parts[0][1..])
      case Some(v) => if v >= 1 then Open(rt, env, v, parts[1], parts[2], parts[3]) else Err(BadBlobVersion)
      case None => Err(BadBlobVersion)
    else if |parts| == 3 then
      Open(rt, env, if rowVersion.Some? then rowVersion.value else LEGACY_KEY_VERSION, parts[0], parts[1], parts[2])
    else Err(BadFormat)
  }

  function NeedsReEncryption(rt: Runtime, env: Env, stored: string, rowVersion: Option<int>): Result<bool> {
    var parts := Split(stored);
    var version :=
      if Versioned(parts) then rt.number(parts[0][1..])
      else if rowVersion.Some? then rowVersion else Some(LEGACY_KEY_VERSION);
    match CurrentVersion(rt, env)
    case Err(error) => Err(error)
    case Ok(current) => Ok(version != Some(current))
  }

  /** The decimal text of the version reads back as the version. */
  predicate ReadsBack(rt: Runtime, version: nat) {
    rt.number(Decimal(version)) == Some(version)
  }

  /** Opening undoes sealing, sealing keeps the length and makes a tag, and the decimal text of the first
      version, and of every integer that some text reads as, reads back. */
  ghost predicate Lawful(rt: Runtime) {
    && (forall key, iv, m :: rt.open(key, iv, rt.seal(key, iv, m)) == Some(m))
    && (forall key, iv, m :: |rt.seal(key, iv, m).data| == |m| && rt.seal(key, iv, m).tag != [])
    && ReadsBack(rt, LEGACY_KEY_VERSION)
    && forall text, n: nat | rt.number(text) == Some(n) :: ReadsBack(rt, n)
  }

  lemma SplitParts(iv: Bytes, sealed: Sealed)
    ensures Split(Parts(iv, sealed)) == [ToHex(iv), ToHex(sealed.tag), ToHex(sealed.data)]
  {
    HexRoundTrip(iv);
    HexRoundTrip(sealed.tag);
    HexRoundTrip(sealed.data);
    SplitWhole(ToHex(sealed.data));
    SplitFirst(ToHex(sealed.tag), ToHex(sealed.data));
    SplitFirst(ToHex(iv), ToHex(sealed.tag) + ":" + ToHex(sealed.data));
    assert Parts(iv, sealed) == ToHex(iv) + ":" + (ToHex(sealed.tag) + ":" + ToHex(sealed.data));
  }

  lemma SplitBlob(version: nat, iv: Bytes, sealed: Sealed)
    ensures Split("v" + Decimal(version) + ":" + Parts(iv, sealed))
         == ["v" + Decimal(version), ToHex(iv), ToHex(sealed.tag), ToHex(sealed.data)]
  {
    DecimalHasNoColon(version);
    SplitParts(iv, sealed);
    SplitFirst("v" + Decimal(version), Parts(iv, sealed));
  }

  /** A sealed text opens under the key of its version exactly when it was not empty. */
  lemma OpenSealed(rt: Runtime, env: Env, version: int, key: Bytes, iv: Bytes, plaintext: Bytes)
    requires Lawful(rt) && KeyFor(rt, env, version) == Ok(key) && iv != []
    ensures var sealed := rt.seal(key, iv, plaintext);
      Open(rt, env, version, ToHex(iv), ToHex(sealed.tag), ToHex(sealed.data))
      == if plaintext == [] then Err(BadFormat) else Ok(plaintext)
  {
    var sealed := rt.seal(key, iv, plaintext);
    HexRoundTrip(iv);
    HexRoundTrip(sealed.tag);
    HexRoundTrip(sealed.data);
    assert Sealed(sealed.data, sealed.tag) == sealed;
  }

  /** later still finds every key that env found. */
  ghost predicate Retains(rt: Runtime, env: Env, later: Env) {
    forall v: int | KeyFor(rt, env, v).Ok? :: KeyFor(rt, later, v) == KeyFor(rt, env, v)
  }

  lemma DecryptBlob(rt: Runtime, env: Env, version: nat, iv: Bytes, sealed: Sealed, rowVersion: Option<int>)
    requires ReadsBack(rt, version) && version >= 1
    ensures Decrypt(rt, env, "v" + Decimal(version) + ":" + Parts(iv, sealed), rowVersion)
         == Open(rt, env, version, ToHex(iv), ToHex(sealed.tag), ToHex(sealed.data))
  {
    SplitBlob(version, iv, sealed);
    assert ("v" + Decimal(version))[1..] == Decimal(version);
  }

  /** What is encrypted decrypts to its plaintext in any later environment that keeps its key, whatever the
      row says, exactly when it was not empty; the empty text is refused as badly formed. */
  lemma DecryptUndoesEncrypt(rt: Runtime, env: Env, later: Env, iv: Bytes, plaintext: Bytes, rowVersion: Option<int>)
    requires Lawful(rt) && Retains(rt, env, later) && iv != []
    requires Encrypt(rt, env, iv, plaintext).Ok?
    ensures Decrypt(rt, later, Encrypt(rt, env, iv, plaintext).value.blob, rowVersion)
         == if plaintext == [] then Err(BadFormat) else Ok(plaintext)
  {
    var version := CurrentVersion(rt, env).value;
    var key := KeyFor(rt, env, version).value;
    CurrentReadsBack(rt, env);
    DecryptBlob(rt, later, version, iv, rt.seal(key, iv, plaintext), rowVersion);
    OpenSealed(rt, later, version, key, iv, plaintext);
  }

  /** A blob without version is read with the row's version, or the first. */
  lemma LegacyBlobsDecrypt(rt: Runtime, env: Env, version: nat, key: Bytes, iv: Bytes, plaintext: Bytes,
                           rowVersion: Option<int>)
    requires Lawful(rt) && iv != [] && KeyFor(rt, env, version) == Ok(key)
    requires rowVersion == Some(version) || (rowVersion == None && version == LEGACY_KEY_VERSION)
    ensures Decrypt(rt, env, Parts(iv, rt.seal(key, iv, plaintext)), rowVersion)
         == if plaintext == [] then Err(BadFormat) else Ok(plaintext)
  {
    SplitParts(iv, rt.seal(key, iv, plaintext));
    OpenSealed(rt, env, version, key, iv, plaintext);
  }

  lemma CurrentReadsBack(rt: Runtime, env: Env)
    requires Lawful(rt) && CurrentVersion(rt, env).Ok?
    ensures CurrentVersion(rt, env).value >= 1 && ReadsBack(rt, CurrentVersion(rt, env).value)
  {
  }

  lemma VersionOfBlob(rt: Runtime, env: Env, version: nat, iv: Bytes, sealed: Sealed, rowVersion: Option<int>)
    requires ReadsBack(rt, version) && CurrentVersion(rt, env).Ok?
    ensures NeedsReEncryption(rt, env, "v" + Decimal(version) + ":" + Parts(iv, sealed), rowVersion)
         == Ok(version != CurrentVersion(rt, env).value)
  {
    SplitBlob(version, iv, sealed);
    assert ("v" + Decimal(version))[1..] == Decimal(version);
  }

  /** A blob is due for re-encryption exactly when it was written under another version. */
  lemma ReEncryptionExactlyWhenOld(rt: Runtime, env: Env, later: Env, iv: Bytes, plaintext: Bytes,
                                   rowVersion: Option<int>)
    requires Lawful(rt) && Encrypt(rt, env, iv, plaintext).Ok? && CurrentVersion(rt, later).Ok?
    ensures NeedsReEncryption(rt, later, Encrypt(rt, env, iv, plaintext).value.blob, rowVersion)
         == Ok(CurrentVersion(rt, env).value != CurrentVersion(rt, later).value)
  {
    var version := CurrentVersion(rt, env).value;
    CurrentReadsBack(rt, env);
    VersionOfBlob(rt, later, version, iv, rt.seal(KeyFor(rt, env, version).value, iv, plaintext), rowVersion);
  }

  // ---------------------------------------------------------------------------------------------
  // Keys and blobs as they are written
  // ---------------------------------------------------------------------------------------------

  lemma {:induction false} FromHexPairs(s: string)
    requires |s| % 2 == 0 && forall c | c in s :: IsHexChar(c)
    ensures |FromHex(s)| == |s| / 2
    ensures forall i | 0 <= i < |s| / 2 :: FromHex(s)[i] == 16 * HexValue(s[2 * i]) + HexValue(s[2 * i + 1])
  {
    if s != [] {
      assert s[0] in s && s[1] in s;
      FromHexPairs(s[2..]);
    }
  }

  predicate Spells(hex: string, key: Bytes) {
    && |hex| == 64 && |key| == 32 && (forall c | c in hex :: c in "0123456789abcdefABCDEF")
    && forall i | 0 <= i < 32 && IsHexChar(hex[2 * i]) && IsHexChar(hex[2 * i + 1]) ::
         key[i] == 16 * HexValue(hex[2 * i]) + HexValue(hex[2 * i + 1])
  }

  /** A key setting is accepted exactly when it spells 32 bytes in hex. */
  lemma ParseKeyIs(hex: string)
    ensures ParseKey(hex).Ok? ==> Spells(hex, ParseKey(hex).value)
    ensures ParseKey(hex).Err? ==> ParseKey(hex) == Err(BadKeySetting) && forall key :: !Spells(hex, key)
  {
    HexCharsAre(hex);
    if ParseKey(hex).Ok? {
      HexSpells(hex);
    }
  }

  lemma HexCharsAre(hex: string)
    ensures (forall c | c in hex :: IsHexChar(c)) <==> forall c | c in hex :: c in "0123456789abcdefABCDEF"
  {
    forall c ensures IsHexChar(c) <==> c in "0123456789abcdefABCDEF" {
      HexCharIs(c);
    }
  }

  lemma HexSpells(hex: string)
    requires |hex| == KEY_HEX_LENGTH && forall c | c in hex :: IsHexChar(c)
    ensures Spells(hex, FromHex(hex))
  {
    HexCharsAre(hex);
    FromHexPairs(hex);
  }

  lemma HexCharIs(c: char)
    ensures IsHexChar(c) <==> c in "0123456789abcdefABCDEF"
  {
  }

  /** The version setting, when there is one, must read as a positive integer. */
  ghost predicate IsCurrent(rt: Runtime, env: Env, version: int) {
    if env.version == "" then version == 1 else rt.number(env.version) == Some(version) && version >= 1
  }

  /** Which setting is the key of a version, and the error when none is. */
  lemma KeyForIs(rt: Runtime, env: Env, current: int, version: int)
    ensures IsCurrent(rt, env, current) ==>
      KeyFor(rt, env, version) ==
        if version == current then ParseKey(env.key)
        else if version in env.keys && |env.keys[version]| > 0 then ParseKey(env.keys[version])
        else Err(KeyMissing(version))
    ensures (forall v :: !IsCurrent(rt, env, v)) ==> KeyFor(rt, env, version) == Err(BadVersionSetting)
  {
    assert CurrentVersion(rt, env).Ok? ==> IsCurrent(rt, env, CurrentVersion(rt, env).value);
    assert IsCurrent(rt, env, current) ==> CurrentVersion(rt, env) == Ok(current);
  }

  /** Encryption needs a version setting that reads and the current key, and reports that version. */
  lemma EncryptsExactlyWhen(rt: Runtime, env: Env, iv: Bytes, plaintext: Bytes)
    ensures Encrypt(rt, env, iv, plaintext).Ok? <==>
      (exists current :: IsCurrent(rt, env, current)) && exists key :: Spells(env.key, key)
    ensures Encrypt(rt, env, iv, plaintext).Ok? ==> IsCurrent(rt, env, Encrypt(rt, env, iv, plaintext).value.keyVersion)
  {
    ParseKeyIs(env.key);
    if current :| IsCurrent(rt, env, current) {
      KeyForIs(rt, env, current, current);
      assert CurrentVersion(rt, env) == Ok(current);
    }
    assert CurrentVersion(rt, env).Ok? ==> IsCurrent(rt, env, CurrentVersion(rt, env).value);
  }

  lemma SplitThree(a: string, b: string, c: string)
    requires NoColon(a) && NoColon(b) && NoColon(c)
    ensures Split(a + ":" + b + ":" + c) == [a, b, c]
  {
    SplitWhole(c);
    SplitFirst(b, c);
    SplitFirst(a, b + ":" + c);
    assert a + ":" + b + ":" + c == a + ":" + (b + ":" + c);
  }

  lemma FirstApart(v: string, a: string, b: string, c: string)
    ensures v + ":" + a + ":" + b + ":" + c == v + ":" + (a + ":" + b + ":" + c)
  {
    assert v + ":" + a + ":" + b == v + ":" + (a + ":" + b);
  }

  lemma SplitFour(v: string, a: string, b: string, c: string)
    requires NoColon(v) && NoColon(a) && NoColon(b) && NoColon(c)
    ensures Split(v + ":" + a + ":" + b + ":" + c) == [v, a, b, c]
  {
    SplitThree(a, b, c);
    SplitFirst(v, a + ":" + b + ":" + c);
    FirstApart(v, a, b, c);
  }

  /** What the parts open to, or why they do not. */
  ghost predicate Opens(rt: Runtime, env: Env, version: int, iv: string, tag: string, data: string, r: Result<Bytes>) {
    if iv == "" || tag == "" || data == "" then r == Err(BadFormat)
    else if KeyFor(rt, env, version).Err? then r == Err(KeyFor(rt, env, version).error)
    else
      var plain := rt.open(KeyFor(rt, env, version).value, FromHex(iv), Sealed(FromHex(data), FromHex(tag)));
      r == if plain == None then Err(Rejected) else Ok(plain.value)
  }

  /** A stored text of three parts is opened with the row's version or the first, and is due for re-encryption
      when that is not the current one. */
  lemma ThreeParts(rt: Runtime, env: Env, a: string, b: string, c: string, rowVersion: Option<int>)
    requires NoColon(a) && NoColon(b) && NoColon(c)
    ensures var stored, version := a + ":" + b + ":" + c, if rowVersion == None then 1 else rowVersion.value;
      && Opens(rt, env, version, a, b, c, Decrypt(rt, env, stored, rowVersion))
      && forall current | IsCurrent(rt, env, current) ::
           NeedsReEncryption(rt, env, stored, rowVersion) == Ok(version != current)
  {
    SplitThree(a, b, c);
  }

  /** One of four parts whose first starts with v is opened with the version written there, which must read as
      a positive integer; it is due for re-encryption when that is not the current one. */
  lemma FourParts(rt: Runtime, env: Env, digits: string, a: string, b: string, c: string, rowVersion: Option<int>)
    requires NoColon(digits) && NoColon(a) && NoColon(b) && NoColon(c)
    ensures var stored, version := "v" + digits + ":" + a + ":" + b + ":" + c, rt.number(digits);
      && (if version.Some? && version.value >= 1
          then Opens(rt, env, version.value, a, b, c, Decrypt(rt, env, stored, rowVersion))
          else Decrypt(rt, env, stored, rowVersion) == Err(BadBlobVersion))
      && forall current | IsCurrent(rt, env, current) ::
           NeedsReEncryption(rt, env, stored, rowVersion) == Ok(version != Some(current))
  {
    SplitFour("v" + digits, a, b, c);
    assert ("v" + digits)[1..] == digits;
  }

  /** Any other number of parts, and four without the v, are badly formed. */
  lemma OtherParts(rt: Runtime, env: Env, stored: string, rowVersion: Option<int>)
    requires |Split(stored)| != 3
    requires |Split(stored)| == 4 ==> !("v" <= stored)
    ensures Decrypt(rt, env, stored, rowVersion) == Err(BadFormat)
  {
    SplitStarts(stored);
  }

  lemma SplitStarts(s: string)
    ensures Split(s)[0] != "" ==> s != "" && Split(s)[0][0] == s[0]
  {
  }

  // ---------------------------------------------------------------------------------------------
  // Rotation
  // ---------------------------------------------------------------------------------------------

  /** The documented rotation: file the current key under its version, then set a new version and key. */
  function Rotate(rt: Runtime, env: Env, version: nat, key: string): Env {
    match CurrentVersion(rt, env)
    case Err(_) => env
    case Ok(current) => Env(Decimal(version), key, env.keys[current := env.key])
  }

  /** A rotation keeps every key exactly when the new version was not in use with a different one. */
  lemma RotationRetainsExactlyWhen(rt: Runtime, env: Env, version: nat, key: string)
    requires ReadsBack(rt, version) && version >= 1 && CurrentVersion(rt, env).Ok?
    ensures Retains(rt, env, Rotate(rt, env, version, key))
       <==> (KeyFor(rt, env, version).Ok? ==> KeyFor(rt, env, version) == ParseKey(key))
  {
    var current, later := CurrentVersion(rt, env).value, Rotate(rt, env, version, key);
    DecimalHasNoColon(version);
    assert CurrentVersion(rt, later) == Ok(version);
    assert KeyFor(rt, later, version) == ParseKey(key);
    forall v: int | v != version && KeyFor(rt, env, v).Ok? ensures KeyFor(rt, later, v) == KeyFor(rt, env, v) {
      assert env.key == "" ==> ParseKey(env.key) == Err(BadKeySetting);
    }
  }

  datatype Action = Write(iv: Bytes, plaintext: Bytes) | Rotation(version: nat, key: string) | Change(env: Env)

  /** Each row with the plaintext it was written from. */
  datatype State = State(env: Env, rows: seq<(Secret, Bytes)>)

  function Apply(rt: Runtime, s: State, a: Action): State {
    match a
    case Change(env) => s.(env := env)
    case Rotation(version, key) => s.(env := Rotate(rt, s.env, version, key))
    case Write(iv, plaintext) =>
      match Encrypt(rt, s.env, iv, plaintext)
      case Ok(secret) => s.(rows := s.rows + [(secret, plaintext)])
      case Err(_) => s
  }

  function Run(rt: Runtime, env: Env, acts: seq<Action>): State {
    if acts == [] then State(env, []) else Apply(rt, Run(rt, env, acts[..|acts| - 1]), acts[|acts| - 1])
  }

  /** Ivs are not empty, a rotation takes a version that is new or had this very key, and any other change of
      environment keeps the keys it had. */
  ghost predicate Careful(rt: Runtime, env: Env, acts: seq<Action>) {
    forall k | 0 <= k < |acts| :: CarefulStep(rt, Run(rt, env, acts[..k]).env, acts[k])
  }

  ghost predicate CarefulStep(rt: Runtime, env: Env, a: Action) {
    match a
    case Write(iv, _) => iv != []
    case Rotation(version, key) =>
      && ReadsBack(rt, version) && version >= 1
      && (KeyFor(rt, env, version).Ok? ==> KeyFor(rt, env, version) == ParseKey(key))
    case Change(later) => Retains(rt, env, later)
  }

  ghost predicate Reads(rt: Runtime, env: Env, secret: Secret, plaintext: Bytes) {
    forall later, rowVersion | Retains(rt, env, later) ::
      Decrypt(rt, later, secret.blob, rowVersion) == if plaintext == [] then Err(BadFormat) else Ok(plaintext)
  }

  lemma ReadsLater(rt: Runtime, env: Env, later: Env, secret: Secret, plaintext: Bytes)
    requires Reads(rt, env, secret, plaintext) && Retains(rt, env, later)
    ensures Reads(rt, later, secret, plaintext)
  {
    forall last | Retains(rt, later, last) ensures Retains(rt, env, last) {
    }
  }

  lemma WrittenReads(rt: Runtime, env: Env, iv: Bytes, plaintext: Bytes)
    requires Lawful(rt) && iv != [] && Encrypt(rt, env, iv, plaintext).Ok?
    ensures Reads(rt, env, Encrypt(rt, env, iv, plaintext).value, plaintext)
  {
    forall later, rowVersion | Retains(rt, env, later)
      ensures Decrypt(rt, later, Encrypt(rt, env, iv, plaintext).value.blob, rowVersion)
           == if plaintext == [] then Err(BadFormat) else Ok(plaintext)
    {
      DecryptUndoesEncrypt(rt, env, later, iv, plaintext, rowVersion);
    }
  }

  ghost predicate AllRead(rt: Runtime, s: State) {
    forall k | 0 <= k < |s.rows| :: Reads(rt, s.env, s.rows[k].0, s.rows[k].1)
  }

  lemma StepReads(rt: Runtime, s: State, a: Action)
    requires Lawful(rt) && AllRead(rt, s) && CarefulStep(rt, s.env, a)
    ensures AllRead(rt, Apply(rt, s, a))
  {
    match a
    case Write(iv, plaintext) =>
      if Encrypt(rt, s.env, iv, plaintext).Ok? {
        WrittenReads(rt, s.env, iv, plaintext);
      }
    case Rotation(version, key) =>
      if CurrentVersion(rt, s.env).Ok? {
        RotationRetainsExactlyWhen(rt, s.env, version, key);
      }
      AllReadLater(rt, s, Rotate(rt, s.env, version, key));
    case Change(later) => AllReadLater(rt, s, later);
  }

  lemma AllReadLater(rt: Runtime, s: State, later: Env)
    requires AllRead(rt, s) && Retains(rt, s.env, later)
    ensures AllRead(rt, s.(env := later))
  {
    forall k | 0 <= k < |s.rows| ensures Reads(rt, later, s.rows[k].0, s.rows[k].1) {
      ReadsLater(rt, s.env, later, s.rows[k].0, s.rows[k].1);
    }
  }

  lemma {:induction false} RunReads(rt: Runtime, env: Env, acts: seq<Action>)
    requires Lawful(rt) && Careful(rt, env, acts)
    ensures AllRead(rt, Run(rt, env, acts))
  {
    if acts != [] {
      var front := acts[..|acts| - 1];
      assert forall k | 0 <= k < |front| :: front[..k] == acts[..k];
      assert CarefulStep(rt, Run(rt, env, acts[..|front|]).env, acts[|front|]);
      RunReads(rt, env, front);
      StepReads(rt, Run(rt, env, front), acts[|front|]);
    }
  }

  /** Over any run of writes, rotations and other changes that keep the old keys, every secret ever
      written still decrypts to its plaintext, exactly when that is not empty. */
  lemma {:induction false} SecretsOutliveRotations(rt: Runtime, env: Env, acts: seq<Action>, k: nat,
                                                   rowVersion: Option<int>)
    requires Lawful(rt) && Careful(rt, env, acts) && k < |Run(rt, env, acts).rows|
    ensures var s := Run(rt, env, acts); var (secret, plaintext) := s.rows[k];
      Decrypt(rt, s.env, secret.blob, rowVersion) == Ok(plaintext) <==> plaintext != []
  {
    RunReads(rt, env, acts);
    var s := Run(rt, env, acts);
    assert Reads(rt, s.env, s.rows[k].0, s.rows[k].1);
    assert Retains(rt, s.env, s.env);
  }
}
