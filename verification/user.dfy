/** The user entity: its type, its access rules and its query filter. */
module UserEntity {
  import opened Wrappers
  import opened Clover

  /** A user's kind, stored as its name. */
  type UserType = string

  const UserTypeRoot: UserType := "root"
  const UserTypeUser: UserType := "user"

  const ErrUnknownUserType: Error := "err: user type isn't exists"

  /** Parses a user type: the two defined names parse to themselves, every other string is an error. */
  function NewUserType(userType: string): (r: Result<UserType>)
    ensures r.Ok? <==> userType == UserTypeRoot || userType == UserTypeUser
    ensures r.Ok? ==> r.value == userType
    ensures r.Err? ==> r.error == ErrUnknownUserType
  {
    if userType == UserTypeRoot then Ok(UserTypeRoot)
    else if userType == UserTypeUser then Ok(UserTypeUser)
    else Err(ErrUnknownUserType)
  }

  /** The write permissions granted to a user. */
  datatype UserRbac = UserRbac(create: bool, delete: bool, update: bool)

  /** `a` grants nothing that `b` does not. */
  predicate GrantsNoMoreThan(a: UserRbac, b: UserRbac) {
    (a.create ==> b.create) && (a.delete ==> b.delete) && (a.update ==> b.update)
  }

  /** The HTTP methods whose permission is looked up in the user's permission record. */
  predicate WriteMethod(httpMethod: string) {
    httpMethod == "POST" || httpMethod == "PUT" || httpMethod == "PATCH" || httpMethod == "DELETE"
  }

  class User {
    var id: string
    var username: string
    var password: string
    var userType: UserType
    var rbac: Option<UserRbac>  // a nil permission record is None

    constructor (id: string, username: string, password: string, userType: UserType, rbac: Option<UserRbac>)
      ensures this.id == id && this.username == username && this.password == password
      ensures this.userType == userType && this.rbac == rbac
    {
      this.id := id;
      this.username := username;
      this.password := password;
      this.userType := userType;
      this.rbac := rbac;
    }

    /** Neither identified by id nor by name. */
    predicate Empty()
      reads this
    {
      id == "" && username == ""
    }

    /** A root user: exactly the users whose stored type parses as root. */
    predicate UserAdmin()
      reads this
      ensures UserAdmin() <==> NewUserType(userType) == Ok(UserTypeRoot)
    {
      userType == UserTypeRoot
    }

    /**
     * Whether the user may issue a request with this HTTP method: reads always,
     * writes as the permission record says, anything else never. The record is
     * only consulted (and so must be present) for the write methods.
     */
    predicate HasRbacAccess(httpMethod: string)
      reads this
      requires WriteMethod(httpMethod) ==> rbac.Some?
      ensures httpMethod == "GET" ==> HasRbacAccess(httpMethod)
      ensures httpMethod == "POST" ==> (HasRbacAccess(httpMethod) <==> rbac.value.create)
      ensures httpMethod == "PUT" || httpMethod == "PATCH" ==> (HasRbacAccess(httpMethod) <==> rbac.value.update)
      ensures httpMethod == "DELETE" ==> (HasRbacAccess(httpMethod) <==> rbac.value.delete)
      ensures HasRbacAccess(httpMethod) ==> httpMethod == "GET" || WriteMethod(httpMethod)
    {
      match httpMethod
      case "GET" => true
      case "POST" => rbac.value.create
      case "PUT" => rbac.value.update
      case "PATCH" => rbac.value.update
      case "DELETE" => rbac.value.delete
      case _ => false
    }

    /** Takes over the other user's name and nothing else. */
    method Update(u: User)
      modifies this
      ensures username == old(u.username)
      ensures id == old(id) && password == old(password)
      ensures userType == old(userType) && rbac == old(rbac)
      ensures Empty() <==> id == "" && old(u.username) == ""
    {
      username := u.username;
    }
  }

  /** Widening a user's permission record never takes access away. */
  lemma RbacAccessMonotone(a: User, b: User, httpMethod: string)
    requires WriteMethod(httpMethod) ==> a.rbac.Some? && b.rbac.Some?
    requires a.rbac.Some? && b.rbac.Some? ==> GrantsNoMoreThan(a.rbac.value, b.rbac.value)
    ensures a.HasRbacAccess(httpMethod) ==> b.HasRbacAccess(httpMethod)
  {
  }

  /** Query filter over users: one equality per non-empty field. */
  datatype FilterUser = FilterUser(id: string, username: string, userType: UserType) {

    /** The document fields the filter tests, in the order it tests them. */
    function Fields(): seq<(string, string)> {
      [("_id", id), ("username", username), ("userType", userType)]
    }

    method Filter() returns (r: Option<Criteria>)
      ensures r.None? <==> id == "" && username == "" && userType == ""
      ensures r.Some? ==> LeftNested(r.value) && Conjuncts(r.value) == Terms(Fields())
      ensures r.Some? ==> forall doc :: Matches(r.value, doc) <==> Selects(Fields(), doc)
    {
      var criterias: seq<Criteria> := [];
      ghost var asked: seq<(string, string)> := [];  // the pairs tested so far
      TermsSnoc(asked, "_id", id);
      if id != "" {
        criterias := criterias + [Eq("_id", id)];
      }
      asked := asked + [("_id", id)];
      TermsSnoc(asked, "username", username);
      if username != "" {
        criterias := criterias + [Eq("username", username)];
      }
      asked := asked + [("username", username)];
      TermsSnoc(asked, "userType", userType);
      if userType != "" {
        criterias := criterias + [Eq("userType", userType)];
      }
      asked := asked + [("userType", userType)];
      assert asked == Fields();
      r := Fold(criterias);
      if r.Some? {
        FilterOfFields(asked);
      }
    }
  }
}
