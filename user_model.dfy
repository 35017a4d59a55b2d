/** The user document: the schema's fields, its defaults, its required flags and the document
    view that queries project. */
module UserModel {
  /** One stored user. `id` is the generated `_id`; `userName` is not declared in the schema but
      is written and queried by the controller, so the record keeps it. */
  datatype UserRecord = UserRecord(
    id: nat,
    name: string,
    email: string,
    password: string,
    userName: string,
    verifyOtp: string,
    verifyOtpExpireAt: int,
    isAccauntVerified: bool)

  /** The `required: true` validators: a required string must be present and not empty. */
  predicate HasRequiredFields(u: UserRecord) {
    u.name != "" && u.email != "" && u.password != ""
  }

  /** A document created from the given fields: the OTP and verification fields take their
      schema defaults. */
  function NewUser(id: nat, name: string, email: string, password: string, userName: string): (u: UserRecord)
    ensures u.id == id && u.name == name && u.email == email
    ensures u.password == password && u.userName == userName
    ensures u.verifyOtp == "" && u.verifyOtpExpireAt == 0 && !u.isAccauntVerified
  {
    UserRecord(id, name, email, password, userName, "", 0, false)
  }

  /** The field names of a user document: `_id`, `name`, `email`, `password`, `userName`,
      `refreshToken`, `verifyOtp`, `verifyOtpExpireAt` and `isAccauntVerified`. */
  datatype Field =
    | Id | Name | Email | Password | UserName | RefreshToken
    | VerifyOtp | VerifyOtpExpireAt | IsAccauntVerified

  datatype FieldValue = Text(s: string) | Number(n: int) | Flag(b: bool)

  type Document = map<Field, FieldValue>

  /** The stored document as field names and values; the record holds no refresh token. */
  function ToDocument(u: UserRecord): Document {
    map[
      Id := Number(u.id),
      Name := Text(u.name),
      Email := Text(u.email),
      Password := Text(u.password),
      UserName := Text(u.userName),
      VerifyOtp := Text(u.verifyOtp),
      VerifyOtpExpireAt := Number(u.verifyOtpExpireAt),
      IsAccauntVerified := Flag(u.isAccauntVerified)
    ]
  }

  /** `select('-a -b ...')`: every field of the document except the excluded ones, each with its
      stored value. */
  function Select(doc: Document, excluded: set<Field>): (r: Document)
    ensures r.Keys == doc.Keys - excluded
    ensures forall k :: k in r ==> r[k] == doc[k]
  {
    map k | k in doc && k !in excluded :: doc[k]
  }
}
