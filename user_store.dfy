/** The user collection: the query filters the controller uses, `findOne`, and `create`. */
module UserStore {
  import opened Values
  import opened UserModel

  /** The filters the controller passes to `findOne` and `findById`. */
  datatype Filter =
    | ById(id: nat)
    | ByEmail(email: string)
    | ByEmailOrUserName(email: string, userName: string)

  predicate Matches(u: UserRecord, f: Filter) {
    match f
    case ById(id) => u.id == id
    case ByEmail(email) => u.email == email
    case ByEmailOrUserName(email, userName) => u.email == email || u.userName == userName
  }

  /** `findOne(filter)`: the position of the first stored document the filter matches, or none
      when no document matches. Values are compared exactly. */
  function FindOne(users: seq<UserRecord>, f: Filter): (r: Option<nat>)
    ensures r.Some? ==> r.value < |users| && Matches(users[r.value], f)
    ensures r.Some? ==> forall j :: 0 <= j < r.value ==> !Matches(users[j], f)
    ensures r.None? <==> forall j :: 0 <= j < |users| ==> !Matches(users[j], f)
  {
    if users == [] then None
    else if Matches(users[0], f) then Some(0)
    else
      match FindOne(users[1..], f)
      case None => None
      case Some(k) => Some(k + 1)
  }

  predicate UniqueEmails(users: seq<UserRecord>) {
    forall i, j :: 0 <= i < j < |users| ==> users[i].email != users[j].email
  }

  predicate UniqueUserNames(users: seq<UserRecord>) {
    forall i, j :: 0 <= i < j < |users| ==> users[i].userName != users[j].userName
  }

  /** The collection's contents and the next identifier it will hand out. */
  datatype Store = Store(users: seq<UserRecord>, nextId: nat) {
    /** What the database guarantees: every document passed validation, `email` is unique
        (the schema's unique index), and identifiers are distinct and already handed out. */
    predicate Consistent() {
      UniqueEmails(users)
      && (forall i :: 0 <= i < |users| ==> HasRequiredFields(users[i]) && users[i].id < nextId)
      && (forall i, j :: 0 <= i < j < |users| ==> users[i].id != users[j].id)
    }
  }

  /** In a consistent store the identifier of a stored document finds that very document. */
  lemma FindByIdOfStored(s: Store, k: nat)
    requires s.Consistent() && k < |s.users|
    ensures FindOne(s.users, ById(s.users[k].id)) == Some(k)
  {
    assert Matches(s.users[k], ById(s.users[k].id));
  }

  /** The `User` model as a mutable collection. */
  class UserCollection {
    var users: seq<UserRecord>
    var nextId: nat

    function Snapshot(): Store
      reads this
    {
      Store(users, nextId)
    }

    ghost predicate Valid()
      reads this
    {
      Snapshot().Consistent()
    }

    constructor ()
      ensures Valid() && users == [] && nextId == 0
    {
      users := [];
      nextId := 0;
    }

    /** `User.create`: appends a new document with a fresh identifier and the schema defaults.
        The caller has already made sure that the unique index and the required validators
        accept it. */
    method Create(name: string, email: string, password: string, userName: string) returns (u: UserRecord)
      requires Valid()
      requires name != "" && email != "" && password != ""
      requires forall i :: 0 <= i < |users| ==> users[i].email != email
      modifies this
      ensures Valid()
      ensures u == NewUser(old(nextId), name, email, password, userName)
      ensures users == old(users) + [u] && nextId == old(nextId) + 1
    {
      u := NewUser(nextId, name, email, password, userName);
      users := users + [u];
      nextId := nextId + 1;
    }
  }
}
