/** The vault document and its nested records (backend/src/models/userVaultModel.ts). */
module UserVaultModel {
  import JsArray

  /** `password` is stored as an envelope payload, never in plain text. */
  datatype Credential = Credential(site: string, username: string, password: string)

  datatype Division = Division(name: string, credentials: seq<Credential>)

  /** A new division from its name alone: `credentials` takes its default, empty. */
  function NewDivision(name: string): (d: Division)
    ensures d.name == name && d.credentials == []
  {
    Division(name, [])
  }

  /** Mongoose's `required` on the credential's three strings. */
  predicate HasRequiredFields(c: Credential)
  {
    c.site != "" && c.username != "" && c.password != ""
  }

  /** Mongoose's `required` on the division's name and on each of its credentials. */
  predicate DivisionComplete(d: Division)
  {
    d.name != "" && forall j :: 0 <= j < |d.credentials| ==> HasRequiredFields(d.credentials[j])
  }

  /** Division names are distinct: kept by the controller, not by the schema. */
  predicate NamesUnique(divisions: seq<Division>)
  {
    JsArray.KeysDistinct(divisions, (d: Division) => d.name)
  }

  /** Sites are distinct within a division: kept by the controller. */
  predicate SitesUnique(credentials: seq<Credential>)
  {
    JsArray.KeysDistinct(credentials, (c: Credential) => c.site)
  }
}
