/**
 * The vault controller (backend/src/controllers/dashboardController.ts).
 * Each user owns at most one vault: an ordered list of named divisions, each
 * an ordered list of credentials whose passwords are stored as envelope
 * payloads. The handlers find or create a division by name, update a
 * credential in place by site, and delete by filtering; reading the vault
 * decrypts every password.
 */
module DashboardController {
  import opened Wrappers
  import JsArray
  import Crypto
  import JsString
  import opened Jwt
  import opened UserModel
  import opened UserVaultModel

  /** A handler's answer: status and message. */
  datatype Reply = Reply(status: int, message: string)

  /** A credential as `getVault` sends it: the password decrypted. */
  datatype CredentialView = CredentialView(site: string, username: string, password: string)

  datatype DivisionView = DivisionView(name: string, credentials: seq<CredentialView>)

  /** `getVault`'s answer; `name` and `divisions` are empty unless the status is 200. */
  datatype VaultReply = VaultReply(status: int, message: string, name: string, divisions: seq<DivisionView>)

  /** `vault.divisions.find((d) => d.name === name)`. */
  function FindDivision(divisions: seq<Division>, name: string): (r: Option<nat>)
    ensures r.Some? ==> r.value < |divisions| && divisions[r.value].name == name
    ensures r.Some? ==> forall i :: 0 <= i < r.value ==> divisions[i].name != name
    ensures r.None? ==> forall i :: 0 <= i < |divisions| ==> divisions[i].name != name
  {
    JsArray.FindIndex(divisions, (d: Division) => d.name == name)
  }

  /** `division.credentials.find((c) => c.site === site)`. */
  function FindCredential(credentials: seq<Credential>, site: string): (r: Option<nat>)
    ensures r.Some? ==> r.value < |credentials| && credentials[r.value].site == site
    ensures r.Some? ==> forall i :: 0 <= i < r.value ==> credentials[i].site != site
    ensures r.None? ==> forall i :: 0 <= i < |credentials| ==> credentials[i].site != site
  {
    JsArray.FindIndex(credentials, (c: Credential) => c.site == site)
  }

  /** Every stored password decrypts. */
  predicate Readable(aead: Crypto.Aead, key: seq<Crypto.Byte>, divisions: seq<Division>)
  {
    forall i, j :: 0 <= i < |divisions| && 0 <= j < |divisions[i].credentials| ==>
      Crypto.DecryptText(aead, key, divisions[i].credentials[j].password).Success?
  }

  /** Sites are unique in every division. */
  predicate AllSitesUnique(divisions: seq<Division>)
  {
    forall i :: 0 <= i < |divisions| ==> SitesUnique(divisions[i].credentials)
  }

  /** Every division passes the schema's `required` checks. */
  predicate AllComplete(divisions: seq<Division>)
  {
    forall i :: 0 <= i < |divisions| ==> DivisionComplete(divisions[i])
  }

  /** What the handlers keep true of every vault. */
  predicate VaultValid(aead: Crypto.Aead, key: seq<Crypto.Byte>, divisions: seq<Division>)
  {
    NamesUnique(divisions) && AllSitesUnique(divisions) && AllComplete(divisions) && Readable(aead, key, divisions)
  }

  /**
   * The credential list after `updateVault` stores `payload` for `site`: an
   * existing credential for the site keeps its position and gets the new
   * username and password; otherwise one is appended.
   */
  function SaveCredential(credentials: seq<Credential>, site: string, username: string, payload: string)
    : (r: seq<Credential>)
    ensures FindCredential(credentials, site).Some? ==>
      r == credentials[FindCredential(credentials, site).value := Credential(site, username, payload)]
    ensures FindCredential(credentials, site).None? ==> r == credentials + [Credential(site, username, payload)]
    ensures forall i :: 0 <= i < |credentials| && credentials[i].site != site ==> r[i] == credentials[i]
    ensures FindCredential(r, site).Some? && r[FindCredential(r, site).value] == Credential(site, username, payload)
    ensures forall i :: 0 <= i < |r| && r[i].site != site ==> r[i] in credentials
    ensures SitesUnique(credentials) ==> SitesUnique(r)
  {
    match FindCredential(credentials, site)
    case Some(k) =>
      var r := credentials[k := credentials[k].(username := username, password := payload)];
      assert FindCredential(r, site) == Some(k) by {
        assert r[k].site == site;
      }
      r
    case None =>
      var r := credentials + [Credential(site, username, payload)];
      assert FindCredential(r, site) == Some(|credentials|) by {
        assert r[|credentials|].site == site;
        assert forall i :: 0 <= i < |credentials| ==> r[i] == credentials[i];
      }
      r
  }

  /**
   * The divisions after `updateVault`: the division named `name`, created
   * empty at the end when missing, holds `payload` for `site`; every other
   * division keeps its position and contents.
   */
  function SaveToDivision(divisions: seq<Division>, name: string, site: string, username: string, payload: string)
    : (r: seq<Division>)
    ensures FindDivision(divisions, name).Some? ==> |r| == |divisions|
    ensures FindDivision(divisions, name).None? ==> |r| == |divisions| + 1
    ensures forall i :: 0 <= i < |divisions| && divisions[i].name != name ==> r[i] == divisions[i]
    ensures FindDivision(r, name).Some?
    ensures var c := r[FindDivision(r, name).value].credentials;
      FindCredential(c, site).Some? && c[FindCredential(c, site).value] == Credential(site, username, payload)
    ensures FindDivision(divisions, name).Some? ==>
      var k := FindDivision(divisions, name).value;
      r == divisions[k := Division(name, SaveCredential(divisions[k].credentials, site, username, payload))]
    ensures FindDivision(divisions, name).None? ==>
      r == divisions + [Division(name, [Credential(site, username, payload)])]
    ensures NamesUnique(divisions) ==> NamesUnique(r)
    ensures AllSitesUnique(divisions) ==> AllSitesUnique(r)
  {
    match FindDivision(divisions, name)
    case Some(k) =>
      var r := divisions[k := divisions[k].(credentials := SaveCredential(divisions[k].credentials, site, username, payload))];
      assert FindDivision(r, name) == Some(k) by {
        assert r[k].name == name;
      }
      r
    case None =>
      var r := divisions + [Division(name, SaveCredential(NewDivision(name).credentials, site, username, payload))];
      assert SaveCredential([], site, username, payload) == [Credential(site, username, payload)] by {
        assert FindCredential([], site).None?;
      }
      assert forall i :: 0 <= i < |divisions| ==> r[i] == divisions[i];
      assert FindDivision(r, name) == Some(|divisions|) by {
        assert r[|divisions|].name == name;
      }
      r
  }

  /**
   * `updateVault` as the handler is written. When the division is missing,
   * the handler pushes a plain object into the Mongoose array, which casts it
   * into a new sub-document with its own credential array, and then pushes
   * the credential onto the plain object's array, which is not saved: the new
   * division is stored empty. An existing division is updated as intended.
   */
  function SaveToDivisionAsWritten(divisions: seq<Division>, name: string, site: string, username: string,
                                   payload: string): (r: seq<Division>)
    ensures FindDivision(divisions, name).Some? ==> r == SaveToDivision(divisions, name, site, username, payload)
    ensures FindDivision(divisions, name).None? ==>
      |r| == |divisions| + 1 && r[..|divisions|] == divisions && r[|divisions|] == NewDivision(name)
  {
    match FindDivision(divisions, name)
    case Some(_) => SaveToDivision(divisions, name, site, username, payload)
    case None => divisions + [NewDivision(name)]
  }

  /**
   * Saving into a division that does not exist yet loses the credential as
   * written: the new division holds nothing for the site, whereas the
   * intended update stores it there.
   */
  lemma AsWrittenLosesFirstCredential(divisions: seq<Division>, name: string, site: string, username: string,
                                      payload: string)
    requires FindDivision(divisions, name).None?
    ensures var r := SaveToDivisionAsWritten(divisions, name, site, username, payload);
      FindDivision(r, name) == Some(|divisions|) && r[|divisions|].credentials == []
    ensures SaveToDivisionAsWritten(divisions, name, site, username, payload)
         != SaveToDivision(divisions, name, site, username, payload)
  {
    var r := SaveToDivisionAsWritten(divisions, name, site, username, payload);
    assert FindDivision(r, name) == Some(|divisions|) by {
      assert forall i :: 0 <= i < |divisions| ==> r[i] == divisions[i];
      assert r[|divisions|].name == name;
    }
    var intended := SaveToDivision(divisions, name, site, username, payload);
    assert |intended[|divisions|].credentials| == 1;
    assert r[|divisions|] != intended[|divisions|];
  }

  /** Storing a payload that decrypts keeps every password of the vault readable. */
  lemma SaveKeepsReadable(aead: Crypto.Aead, key: seq<Crypto.Byte>, divisions: seq<Division>,
                          name: string, site: string, username: string, payload: string)
    requires Readable(aead, key, divisions)
    requires Crypto.DecryptText(aead, key, payload).Success?
    ensures Readable(aead, key, SaveToDivision(divisions, name, site, username, payload))
  {
    var r := SaveToDivision(divisions, name, site, username, payload);
    match FindDivision(divisions, name)
    case Some(k) =>
      var creds := divisions[k].credentials;
      var saved := SaveCredential(creds, site, username, payload);
      forall j | 0 <= j < |saved|
        ensures Crypto.DecryptText(aead, key, saved[j].password).Success?
      {
        if FindCredential(creds, site).None? && j == |creds| {
        } else if FindCredential(creds, site).None? || j != FindCredential(creds, site).value {
          assert saved[j] == creds[j];
        }
      }
      forall i, j | 0 <= i < |r| && 0 <= j < |r[i].credentials|
        ensures Crypto.DecryptText(aead, key, r[i].credentials[j].password).Success?
      {
        if i != k {
          assert r[i] == divisions[i];
        }
      }
    case None =>
      assert forall i :: 0 <= i < |divisions| ==> r[i] == divisions[i];
  }

  /** Storing non-empty fields keeps every division of the vault complete. */
  lemma SaveKeepsComplete(divisions: seq<Division>, name: string, site: string, username: string, payload: string)
    requires AllComplete(divisions)
    requires name != "" && site != "" && username != "" && payload != ""
    ensures AllComplete(SaveToDivision(divisions, name, site, username, payload))
  {
    var r := SaveToDivision(divisions, name, site, username, payload);
    match FindDivision(divisions, name)
    case Some(k) =>
      var creds := divisions[k].credentials;
      var saved := SaveCredential(creds, site, username, payload);
      forall j | 0 <= j < |saved|
        ensures UserVaultModel.HasRequiredFields(saved[j])
      {
        if FindCredential(creds, site).None? && j == |creds| {
        } else if FindCredential(creds, site).None? || j != FindCredential(creds, site).value {
          assert saved[j] == creds[j];
        }
      }
      forall i | 0 <= i < |r|
        ensures DivisionComplete(r[i])
      {
        if i != k {
          assert r[i] == divisions[i];
        }
      }
    case None =>
      assert forall i :: 0 <= i < |divisions| ==> r[i] == divisions[i];
  }

  /** `division.credentials.filter((c) => c.site !== site)`. */
  function WithoutSite(credentials: seq<Credential>, site: string): (r: seq<Credential>)
    ensures forall i :: 0 <= i < |r| ==> r[i] in credentials && r[i].site != site
    ensures forall i :: 0 <= i < |credentials| && credentials[i].site != site ==> credentials[i] in r
    ensures FindCredential(credentials, site).None? ==> r == credentials
    ensures SitesUnique(credentials) && FindCredential(credentials, site).Some? ==>
      var k := FindCredential(credentials, site).value;
      r == credentials[..k] + credentials[k + 1..]
    ensures SitesUnique(credentials) ==> SitesUnique(r)
  {
    var keep := (c: Credential) => c.site != site;
    assert SitesUnique(credentials) ==> SitesUnique(JsArray.Filter(credentials, keep)) by {
      if SitesUnique(credentials) {
        JsArray.FilterKeepsKeysDistinct(credentials, keep, (c: Credential) => c.site);
      }
    }
    assert FindCredential(credentials, site).None? ==> JsArray.Filter(credentials, keep) == credentials by {
      if FindCredential(credentials, site).None? {
        JsArray.FilterKeepsAll(credentials, keep);
      }
    }
    assert SitesUnique(credentials) && FindCredential(credentials, site).Some? ==>
      var k := FindCredential(credentials, site).value;
      JsArray.Filter(credentials, keep) == credentials[..k] + credentials[k + 1..]
    by {
      if SitesUnique(credentials) && FindCredential(credentials, site).Some? {
        JsArray.FilterRemovesOne(credentials, keep, FindCredential(credentials, site).value);
      }
    }
    JsArray.Filter(credentials, keep)
  }

  /** `vault.divisions.filter((d) => d.name !== name)`. */
  function WithoutDivision(divisions: seq<Division>, name: string): (r: seq<Division>)
    ensures forall i :: 0 <= i < |r| ==> r[i] in divisions && r[i].name != name
    ensures forall i :: 0 <= i < |divisions| && divisions[i].name != name ==> divisions[i] in r
    ensures FindDivision(divisions, name).None? ==> r == divisions
    ensures NamesUnique(divisions) && FindDivision(divisions, name).Some? ==>
      var k := FindDivision(divisions, name).value;
      r == divisions[..k] + divisions[k + 1..]
    ensures NamesUnique(divisions) ==> NamesUnique(r)
  {
    var keep := (d: Division) => d.name != name;
    assert NamesUnique(divisions) ==> NamesUnique(JsArray.Filter(divisions, keep)) by {
      if NamesUnique(divisions) {
        JsArray.FilterKeepsKeysDistinct(divisions, keep, (d: Division) => d.name);
      }
    }
    assert FindDivision(divisions, name).None? ==> JsArray.Filter(divisions, keep) == divisions by {
      if FindDivision(divisions, name).None? {
        JsArray.FilterKeepsAll(divisions, keep);
      }
    }
    assert NamesUnique(divisions) && FindDivision(divisions, name).Some? ==>
      var k := FindDivision(divisions, name).value;
      JsArray.Filter(divisions, keep) == divisions[..k] + divisions[k + 1..]
    by {
      if NamesUnique(divisions) && FindDivision(divisions, name).Some? {
        JsArray.FilterRemovesOne(divisions, keep, FindDivision(divisions, name).value);
      }
    }
    JsArray.Filter(divisions, keep)
  }

  /**
   * The credentials of `getVault`'s answer: each password decrypted, in
   * order; the first payload that does not decrypt makes the whole answer
   * fail.
   */
  function DecryptCredentials(aead: Crypto.Aead, key: seq<Crypto.Byte>, credentials: seq<Credential>)
    : (r: Result<seq<CredentialView>, string>)
    ensures r.Success? <==> forall j :: 0 <= j < |credentials| ==> Crypto.DecryptText(aead, key, credentials[j].password).Success?
    ensures r.Success? ==> |r.value| == |credentials|
    ensures r.Success? ==> forall j :: 0 <= j < |credentials| ==>
      r.value[j] == CredentialView(credentials[j].site, credentials[j].username,
                                   Crypto.DecryptText(aead, key, credentials[j].password).value)
    decreases |credentials|
  {
    if |credentials| == 0 then Success([])
    else
      var c := credentials[0];
      match Crypto.DecryptText(aead, key, c.password)
      case Failure(e) => Failure(e)
      case Success(p) =>
        match DecryptCredentials(aead, key, credentials[1..])
        case Failure(e) =>
          assert exists j :: 1 <= j < |credentials| && Crypto.DecryptText(aead, key, credentials[j].password).Failure? by {
            var j :| 0 <= j < |credentials[1..]| && Crypto.DecryptText(aead, key, credentials[1..][j].password).Failure?;
            assert credentials[1..][j] == credentials[j + 1];
          }
          Failure(e)
        case Success(rest) => Success([CredentialView(c.site, c.username, p)] + rest)
  }

  /** The divisions of `getVault`'s answer, in order. */
  function DecryptDivisions(aead: Crypto.Aead, key: seq<Crypto.Byte>, divisions: seq<Division>)
    : (r: Result<seq<DivisionView>, string>)
    ensures r.Success? <==> Readable(aead, key, divisions)
    ensures r.Success? ==> |r.value| == |divisions|
    ensures r.Success? ==> forall i :: 0 <= i < |divisions| ==>
      && r.value[i].name == divisions[i].name
      && DecryptCredentials(aead, key, divisions[i].credentials) == Success(r.value[i].credentials)
    decreases |divisions|
  {
    if |divisions| == 0 then Success([])
    else
      var d := divisions[0];
      match DecryptCredentials(aead, key, d.credentials)
      case Failure(e) => Failure(e)
      case Success(views) =>
        match DecryptDivisions(aead, key, divisions[1..])
        case Failure(e) =>
          assert !Readable(aead, key, divisions) by {
            assert !Readable(aead, key, divisions[1..]);
            var i, j :| 0 <= i < |divisions[1..]| && 0 <= j < |divisions[1..][i].credentials|
              && Crypto.DecryptText(aead, key, divisions[1..][i].credentials[j].password).Failure?;
            assert divisions[1..][i] == divisions[i + 1];
          }
          Failure(e)
        case Success(rest) =>
          assert Readable(aead, key, divisions) by {
            forall i, j | 0 <= i < |divisions| && 0 <= j < |divisions[i].credentials|
              ensures Crypto.DecryptText(aead, key, divisions[i].credentials[j].password).Success?
            {
              if i > 0 {
                assert divisions[i] == divisions[1..][i - 1];
              }
            }
          }
          var r := [DivisionView(d.name, views)] + rest;
          assert forall i :: 1 <= i < |divisions| ==> r[i] == rest[i - 1] && divisions[i] == divisions[1..][i - 1];
          Success(r)
  }

  /**
   * A password saved by `updateVault` reads back unchanged: decrypting the
   * saved vault succeeds, and at the division's and site's position
   * `getVault` shows the username and the plaintext password.
   */
  lemma SavedPasswordReadsBack(aead: Crypto.Aead, key: seq<Crypto.Byte>, iv: seq<Crypto.Byte>,
                               divisions: seq<Division>, name: string, site: string, username: string, password: string)
    requires Crypto.Sound(aead) && |key| == Crypto.KEY_BYTES && |iv| == Crypto.IV_BYTES && password != ""
    requires Readable(aead, key, divisions)
    ensures Crypto.EncryptText(aead, key, iv, password).Success?
    ensures var saved := SaveToDivision(divisions, name, site, username, Crypto.EncryptText(aead, key, iv, password).value);
      var k := FindDivision(saved, name).value;
      var j := FindCredential(saved[k].credentials, site).value;
      var r := DecryptDivisions(aead, key, saved);
      r.Success? && r.value[k].credentials[j] == CredentialView(site, username, password)
  {
    Crypto.EncryptDecryptRoundTrip(aead, key, iv, password);
    var payload := Crypto.EncryptText(aead, key, iv, password).value;
    SaveKeepsReadable(aead, key, divisions, name, site, username, payload);
  }

  class VaultStore {
    /** The vault collection, keyed by owner: at most one vault per user. */
    var vaults: map<UserId, seq<Division>>
    const aead: Crypto.Aead
    const masterKey: seq<Crypto.Byte>

    ghost predicate Valid()
      reads this
    {
      Crypto.Sound(aead) && forall uid :: uid in vaults ==> VaultValid(aead, masterKey, vaults[uid])
    }

    /**
     * The store at start-up, under the key the cipher module loads from
     * `MASTER_KEY`; a key of 64 characters that are not all hexadecimal
     * digits loads, but then every encryption and decryption throws.
     */
    constructor (aead: Crypto.Aead, masterKeyHex: string)
      requires Crypto.Sound(aead) && Crypto.LoadMasterKey(masterKeyHex).Success?
      ensures Valid() && vaults == map[]
      ensures this.aead == aead && this.masterKey == Crypto.LoadMasterKey(masterKeyHex).value
    {
      vaults := map[];
      this.aead := aead;
      this.masterKey := Crypto.LoadMasterKey(masterKeyHex).value;
    }

    /** `UserVault.findOne({ userId })`, or a new vault with no divisions. */
    function VaultOf(userId: UserId): (divisions: seq<Division>)
      reads this
      ensures userId !in vaults ==> divisions == []
    {
      if userId in vaults then vaults[userId] else []
    }

    /**
     * `getVault`. `users` is the user collection, consulted for the owner's
     * name. A password that does not decrypt makes `decryptText` throw, and
     * the answer is the generic server error.
     */
    function GetVault(users: map<UserId, User>, authorization: Option<string>, verify: string -> Option<Claims>)
      : (r: VaultReply)
      reads this
      ensures UserIdFromToken(authorization, verify).None? ==> r == VaultReply(401, "Unauthorized.", "", [])
      ensures UserIdFromToken(authorization, verify).Some? ==>
        var uid := UserIdFromToken(authorization, verify).value;
        if uid !in users then r == VaultReply(400, "Invalid credentials.", "", [])
        else if uid !in vaults then r == VaultReply(200, "", users[uid].name, [])
        else match DecryptDivisions(aead, masterKey, vaults[uid])
          case Failure(_) => r == VaultReply(500, "Server error.", "", [])
          case Success(views) => r == VaultReply(200, "", users[uid].name, views)
    {
      match UserIdFromToken(authorization, verify)
      case None => VaultReply(401, "Unauthorized.", "", [])
      case Some(uid) =>
        if uid !in users then VaultReply(400, "Invalid credentials.", "", [])
        else if uid !in vaults then VaultReply(200, "", users[uid].name, [])
        else match DecryptDivisions(aead, masterKey, vaults[uid])
          case Failure(_) => VaultReply(500, "Server error.", "", [])
          case Success(views) => VaultReply(200, "", users[uid].name, views)
    }

    /** Reading a vault of a valid store never fails for an authenticated, existing user. */
    lemma GetVaultSucceeds(users: map<UserId, User>, authorization: Option<string>, verify: string -> Option<Claims>)
      requires Valid()
      requires UserIdFromToken(authorization, verify).Some? && UserIdFromToken(authorization, verify).value in users
      ensures var r := GetVault(users, authorization, verify);
        r.status == 200 && r.name == users[UserIdFromToken(authorization, verify).value].name
        && |r.divisions| == |VaultOf(UserIdFromToken(authorization, verify).value)|
    {
    }

    /**
     * `createDivision`: an empty division appended under a new name, the
     * vault created when the user has none.
     */
    method CreateDivision(authorization: Option<string>, verify: string -> Option<Claims>, divisionName: string)
      returns (r: Reply)
      requires Valid()
      modifies this
      ensures Valid()
      ensures
        var uid := UserIdFromToken(authorization, verify);
        if uid.None? then
          r == Reply(401, "Unauthorized.") && vaults == old(vaults)
        else if divisionName == "" then
          r == Reply(400, "Division name required.") && vaults == old(vaults)
        else if FindDivision(old(VaultOf(uid.value)), divisionName).Some? then
          r == Reply(400, "Division already exists.") && vaults == old(vaults)
        else
          && r == Reply(200, "Division created successfully.")
          && vaults == old(vaults)[uid.value := old(VaultOf(uid.value)) + [NewDivision(divisionName)]]
    {
      var uid := UserIdFromToken(authorization, verify);
      if uid.None? {
        return Reply(401, "Unauthorized.");
      }
      if divisionName == "" {
        return Reply(400, "Division name required.");
      }
      var divisions := VaultOf(uid.value);
      if FindDivision(divisions, divisionName).Some? {
        return Reply(400, "Division already exists.");
      }
      var updated := divisions + [NewDivision(divisionName)];
      assert NamesUnique(updated) by {
        assert forall i :: 0 <= i < |divisions| ==> updated[i] == divisions[i];
      }
      assert AllSitesUnique(updated) by {
        assert forall i :: 0 <= i < |divisions| ==> updated[i] == divisions[i];
      }
      assert AllComplete(updated) by {
        assert forall i :: 0 <= i < |divisions| ==> updated[i] == divisions[i];
      }
      assert Readable(aead, masterKey, updated) by {
        assert forall i :: 0 <= i < |divisions| ==> updated[i] == divisions[i];
      }
      vaults := vaults[uid.value := updated];
      return Reply(200, "Division created successfully.");
    }

    /**
     * `updateVault`: the password encrypted under the fresh `iv`, the
     * division found or created, the credential for the site replaced in
     * place or appended. A master key that is not 32 bytes makes the
     * encryption throw, and the answer is the generic server error. A new
     * division is stored with its credential, as intended; the handler as
     * written stores it empty (`SaveToDivisionAsWritten`).
     */
    method UpdateVault(authorization: Option<string>, verify: string -> Option<Claims>, divisionName: string,
                       site: string, username: string, password: string, iv: seq<Crypto.Byte>)
      returns (r: Reply)
      requires Valid()
      requires |iv| == Crypto.IV_BYTES
      modifies this
      ensures Valid()
      ensures
        var uid := UserIdFromToken(authorization, verify);
        if uid.None? then
          r == Reply(401, "Unauthorized.") && vaults == old(vaults)
        else if divisionName == "" || site == "" || username == "" || password == "" then
          r == Reply(400, "All fields are required.") && vaults == old(vaults)
        else match Crypto.EncryptText(aead, masterKey, iv, password)
          case Failure(_) => r == Reply(500, "Server error.") && vaults == old(vaults)
          case Success(payload) =>
            && r == Reply(200, "Credential saved/updated successfully.")
            && vaults == old(vaults)[uid.value := SaveToDivision(old(VaultOf(uid.value)), divisionName, site, username, payload)]
    {
      var uid := UserIdFromToken(authorization, verify);
      if uid.None? {
        return Reply(401, "Unauthorized.");
      }
      if divisionName == "" || site == "" || username == "" || password == "" {
        return Reply(400, "All fields are required.");
      }
      var encrypted := Crypto.EncryptText(aead, masterKey, iv, password);
      if encrypted.Failure? {
        // `encryptText` throws: the handler's catch answers.
        return Reply(500, "Server error.");
      }
      var payload := encrypted.value;
      Crypto.EncryptDecryptRoundTrip(aead, masterKey, iv, password);
      var divisions := VaultOf(uid.value);
      SaveKeepsReadable(aead, masterKey, divisions, divisionName, site, username, payload);
      assert payload != "" by {
        // The payload opens with the 24 hex digits of the iv.
        assert JsString.Split("", '.') == [""];
      }
      SaveKeepsComplete(divisions, divisionName, site, username, payload);
      vaults := vaults[uid.value := SaveToDivision(divisions, divisionName, site, username, payload)];
      return Reply(200, "Credential saved/updated successfully.");
    }

    /** `deleteCredential`: the credentials for `site` filtered out of the first division named `divisionName`. */
    method DeleteCredential(authorization: Option<string>, verify: string -> Option<Claims>,
                            divisionName: string, site: string)
      returns (r: Reply)
      requires Valid()
      modifies this
      ensures Valid()
      ensures
        var uid := UserIdFromToken(authorization, verify);
        if uid.None? then
          r == Reply(401, "Unauthorized.") && vaults == old(vaults)
        else if divisionName == "" || site == "" then
          r == Reply(400, "Division name and site required.") && vaults == old(vaults)
        else if uid.value !in old(vaults) then
          r == Reply(404, "Vault not found.") && vaults == old(vaults)
        else
          var divisions := old(vaults)[uid.value];
          match FindDivision(divisions, divisionName)
          case None => r == Reply(404, "Division not found.") && vaults == old(vaults)
          case Some(k) =>
            && r == Reply(200, "Credential deleted successfully.")
            && vaults == old(vaults)[uid.value := divisions[k := divisions[k].(
                 credentials := WithoutSite(divisions[k].credentials, site))]]
    {
      var uid := UserIdFromToken(authorization, verify);
      if uid.None? {
        return Reply(401, "Unauthorized.");
      }
      if divisionName == "" || site == "" {
        return Reply(400, "Division name and site required.");
      }
      if uid.value !in vaults {
        return Reply(404, "Vault not found.");
      }
      var divisions := vaults[uid.value];
      var found := FindDivision(divisions, divisionName);
      if found.None? {
        return Reply(404, "Division not found.");
      }
      var k := found.value;
      var updated := divisions[k := divisions[k].(credentials := WithoutSite(divisions[k].credentials, site))];
      assert NamesUnique(updated) by {
        assert forall i :: 0 <= i < |divisions| ==> updated[i].name == divisions[i].name;
      }
      assert Readable(aead, masterKey, updated) by {
        forall i, j | 0 <= i < |updated| && 0 <= j < |updated[i].credentials|
          ensures Crypto.DecryptText(aead, masterKey, updated[i].credentials[j].password).Success?
        {
          if i == k {
            assert updated[i].credentials[j] in divisions[k].credentials;
          }
        }
      }
      assert AllComplete(updated) by {
        forall i | 0 <= i < |updated|
          ensures DivisionComplete(updated[i])
        {
          if i == k {
            forall j | 0 <= j < |updated[i].credentials|
              ensures UserVaultModel.HasRequiredFields(updated[i].credentials[j])
            {
              assert updated[i].credentials[j] in divisions[k].credentials;
            }
          }
        }
      }
      vaults := vaults[uid.value := updated];
      return Reply(200, "Credential deleted successfully.");
    }

    /** `deleteDivision`: every division named `divisionName` filtered out; an absent name still succeeds. */
    method DeleteDivision(authorization: Option<string>, verify: string -> Option<Claims>, divisionName: string)
      returns (r: Reply)
      requires Valid()
      modifies this
      ensures Valid()
      ensures
        var uid := UserIdFromToken(authorization, verify);
        if uid.None? then
          r == Reply(401, "Unauthorized.") && vaults == old(vaults)
        else if divisionName == "" then
          r == Reply(400, "Division name required.") && vaults == old(vaults)
        else if uid.value !in old(vaults) then
          r == Reply(404, "Vault not found.") && vaults == old(vaults)
        else
          && r == Reply(200, "Division deleted successfully.")
          && vaults == old(vaults)[uid.value := WithoutDivision(old(vaults)[uid.value], divisionName)]
    {
      var uid := UserIdFromToken(authorization, verify);
      if uid.None? {
        return Reply(401, "Unauthorized.");
      }
      if divisionName == "" {
        return Reply(400, "Division name required.");
      }
      if uid.value !in vaults {
        return Reply(404, "Vault not found.");
      }
      var divisions := vaults[uid.value];
      var updated := WithoutDivision(divisions, divisionName);
      assert AllSitesUnique(updated) && AllComplete(updated) && Readable(aead, masterKey, updated) by {
        forall i | 0 <= i < |updated|
          ensures exists m :: 0 <= m < |divisions| && updated[i] == divisions[m]
        {
          assert updated[i] in divisions;
        }
      }
      vaults := vaults[uid.value := updated];
      return Reply(200, "Division deleted successfully.");
    }
  }
}
