/**
 * The user administration page of the admin client
 * (transit-management-system/client/src/components/UserManagement.jsx):
 * the user list kept in the component's state, the user dialog with its
 * e-mail check, the active switch, and the role tabs with the search.
 */
module UserManagement {
  import opened Wrappers
  import opened Forms
  import JsArray
  import JsString

  /** The values of the role selector. */
  datatype Role = Admin | Driver | Customer

  /** A user; `active` is `None` when the property is absent (`undefined`). */
  datatype User = User(
    id: string,
    name: string,
    email: string,
    role: Role,
    specializedTransitEligible: bool,
    createdAt: string,
    active: Option<bool>)

  /** The `formData` of the user dialog. */
  datatype UserForm = UserForm(
    name: string,
    email: string,
    password: string,
    role: Role,
    specializedTransitEligible: bool,
    active: bool)

  /** The alerts that stop a submit. */
  datatype UserRejection = MissingRequiredFields | InvalidEmail

  // ----- The e-mail pattern /^[^\s@]+@[^\s@]+\.[^\s@]+$/ -----

  /** A character of the class `[^\s@]`. */
  predicate Plain(c: char) {
    !JsString.IsJsSpace(c) && c != '@'
  }

  predicate AllPlain(s: string) {
    forall k :: 0 <= k < |s| ==> Plain(s[k])
  }

  /**
   * The e-mail check of `handleSubmit`, read left to right: a non-empty
   * plain local part up to the first `@`, then a plain domain of which a
   * character other than the first and the last is a dot.
   */
  function EmailAccepted(e: string): (b: bool)
    ensures b ==> '@' in e && |e| >= 5
  {
    var local := JsString.UpTo(e, '@');
    if |local| == |e| || local == [] || !AllPlain(local) then false
    else
      var domain := e[|local| + 1..];
      assert e[|local|] in e;
      AllPlain(domain) && |domain| >= 3 && '.' in domain[1..|domain| - 1]
  }

  /**
   * The match of the regular expression itself: a split `e = L @ D . T`
   * with `L`, `D` and `T` non-empty runs of `[^\s@]`, `@` at `at` and the
   * dot at `dot`.
   */
  ghost predicate MatchesEmailPattern(e: string) {
    exists at, dot :: 0 < at && at + 1 < dot < |e| - 1 && EmailSplit(e, at, dot)
  }

  ghost predicate EmailSplit(e: string, at: int, dot: int)
    requires 0 < at && at + 1 < dot < |e| - 1
  {
    && e[at] == '@' && e[dot] == '.'
    && AllPlain(e[..at]) && AllPlain(e[at + 1..dot]) && AllPlain(e[dot + 1..])
  }

  /** The left-to-right check accepts exactly the texts the pattern matches. */
  lemma EmailAcceptedIsPattern(e: string)
    ensures EmailAccepted(e) <==> MatchesEmailPattern(e)
  {
    if EmailAccepted(e) {
      AcceptedMatchesPattern(e);
    }
    if MatchesEmailPattern(e) {
      var at, dot :| 0 < at && at + 1 < dot < |e| - 1 && EmailSplit(e, at, dot);
      SplitIsAccepted(e, at, dot);
    }
  }

  lemma AcceptedMatchesPattern(e: string)
    requires EmailAccepted(e)
    ensures MatchesEmailPattern(e)
  {
    var local := JsString.UpTo(e, '@');
    var at := |local|;
    var domain := e[at + 1..];
    var inner := domain[1..|domain| - 1];
    var k :| 0 <= k < |inner| && inner[k] == '.';
    var dot := at + 2 + k;
    assert e[..at] == local;
    assert e[at + 1..dot] == domain[..k + 1];
    assert e[dot + 1..] == domain[k + 2..];
    assert EmailSplit(e, at, dot);
  }

  lemma SplitIsAccepted(e: string, at: int, dot: int)
    requires 0 < at && at + 1 < dot < |e| - 1 && EmailSplit(e, at, dot)
    ensures EmailAccepted(e)
  {
    var local := e[..at];
    var domain := e[at + 1..];
    assert e == local + ['@'] + domain;
    assert '@' !in local by {
      forall k | 0 <= k < |local| ensures local[k] != '@' {
        assert Plain(local[k]);
      }
    }
    JsString.UpToOf(local, '@', domain);
    assert AllPlain(domain) by {
      forall k | 0 <= k < |domain|
        ensures Plain(domain[k])
      {
        var i := at + 1 + k;
        assert domain[k] == e[i];
        if i < dot {
          assert e[at + 1..dot][k] == e[i];
        } else if i > dot {
          assert e[dot + 1..][i - dot - 1] == e[i];
        }
      }
    }
    var inner := domain[1..|domain| - 1];
    assert inner[dot - at - 2] == '.';
  }

  /** A plain address of the usual shape is accepted. */
  lemma UsualAddressAccepted(local: string, host: string, tld: string)
    requires local != [] && host != [] && tld != []
    requires AllPlain(local) && AllPlain(host) && AllPlain(tld)
    ensures EmailAccepted(local + "@" + host + "." + tld)
  {
    var e := local + "@" + host + "." + tld;
    var at := |local|;
    var dot := |local| + 1 + |host|;
    assert e[..at] == local;
    assert e[at + 1..dot] == host;
    assert e[dot + 1..] == tld;
    assert EmailSplit(e, at, dot);
    EmailAcceptedIsPattern(e);
  }

  /** An address with a second `@` is refused. */
  lemma TwoAtSignsRefused(e: string, i: int, j: int)
    requires 0 <= i < j < |e| && e[i] == '@' && e[j] == '@'
    ensures !EmailAccepted(e)
  {
    EmailAcceptedIsPattern(e);
    if MatchesEmailPattern(e) {
      var at, dot :| 0 < at && at + 1 < dot < |e| - 1 && EmailSplit(e, at, dot);
      OnlyOneAt(e, at, dot, i);
      OnlyOneAt(e, at, dot, j);
    }
  }

  /** In a matching split, the `@` at `at` is the only one. */
  lemma OnlyOneAt(e: string, at: int, dot: int, i: int)
    requires 0 < at && at + 1 < dot < |e| - 1 && EmailSplit(e, at, dot)
    requires 0 <= i < |e| && e[i] == '@'
    ensures i == at
  {
    forall k | 0 <= k < at
      ensures e[k] != '@'
    {
      assert e[..at][k] == e[k];
    }
    forall k | at < k < dot
      ensures e[k] != '@'
    {
      assert e[at + 1..dot][k - at - 1] == e[k];
    }
    forall k | dot < k < |e|
      ensures e[k] != '@'
    {
      assert e[dot + 1..][k - dot - 1] == e[k];
    }
  }

  // ----- The dialog -----

  /**
   * `handleOpenDialog(user)`: the form for editing `user`, or the blank form
   * for a new customer. The password field starts empty, and an existing
   * user's switch is on unless its `active` is explicitly `false`.
   */
  function DialogFor(user: Option<User>): (r: UserForm)
    ensures r.password == ""
    ensures r.active <==> user.None? || user.value.active != Some(false)
    ensures user.Some? ==> r.name == user.value.name && r.email == user.value.email && r.role == user.value.role
    ensures user.Some? ==> r.specializedTransitEligible == user.value.specializedTransitEligible
    ensures user.None? ==> r == UserForm("", "", "", Customer, false, true)
  {
    match user
    case Some(u) => UserForm(u.name, u.email, "", u.role, u.specializedTransitEligible, u.active != Some(false))
    case None => UserForm("", "", "", Customer, false, true)
  }

  /** The dialog's values written over a user: `_id` and `createdAt` stay. */
  function WithForm(u: User, form: UserForm): (r: User)
    ensures r.id == u.id && r.createdAt == u.createdAt
    ensures r.name == form.name && r.email == form.email && r.role == form.role
    ensures r.specializedTransitEligible == form.specializedTransitEligible && r.active == Some(form.active)
  {
    User(u.id, form.name, form.email, form.role, form.specializedTransitEligible, u.createdAt, Some(form.active))
  }

  /**
   * `handleSubmit`: the name and the e-mail are required, and the password
   * too unless an existing user is being edited; then the e-mail must match
   * the pattern. When editing, every user with the edited `_id` takes the
   * dialog's values; when creating, one user with the fresh id `newId` and
   * creation time `now` is appended.
   */
  function SubmitUser(users: seq<User>, form: UserForm, current: Option<User>, newId: string, now: string)
    : (r: Submission<User, UserRejection>)
    ensures form.name == "" || form.email == "" || (current.None? && form.password == "") ==>
      r == Rejected(MissingRequiredFields)
    ensures form.name != "" && form.email != "" && (current.Some? || form.password != "") && !MatchesEmailPattern(form.email) ==>
      r == Rejected(InvalidEmail)
    ensures r.Saved? <==>
      form.name != "" && form.email != "" && (current.Some? || form.password != "") && MatchesEmailPattern(form.email)
    ensures r.Saved? && current.Some? ==>
      && |r.items| == |users|
      && (forall i :: 0 <= i < |users| && users[i].id == current.value.id ==> r.items[i] == WithForm(users[i], form))
      && (forall i :: 0 <= i < |users| && users[i].id != current.value.id ==> r.items[i] == users[i])
    ensures r.Saved? && current.None? ==>
      && |r.items| == |users| + 1
      && r.items[..|users|] == users
      && r.items[|users|].id == newId && r.items[|users|].createdAt == now
      && r.items[|users|] == WithForm(r.items[|users|], form)
  {
    EmailAcceptedIsPattern(form.email);
    if form.name == "" || form.email == "" || (current.None? && form.password == "") then
      Rejected(MissingRequiredFields)
    else if !EmailAccepted(form.email) then
      Rejected(InvalidEmail)
    else if current.Some? then
      Saved(JsArray.Map(users, (u: User) => if u.id == current.value.id then WithForm(u, form) else u))
    else
      Saved(users + [User(newId, form.name, form.email, form.role, form.specializedTransitEligible, now, Some(form.active))])
  }

  // ----- The active switch of a row -----

  /** `!user.active`: an absent `active` is falsy, so it turns into `true`. */
  function Flipped(active: Option<bool>): (r: bool)
    ensures active.Some? ==> r == !active.value
    ensures active.None? ==> r
  {
    !(active == Some(true))
  }

  /**
   * `handleToggleUserStatus(id)`: every user with that `_id` has `active`
   * flipped and keeps every other field; all other users are unchanged.
   */
  function ToggleUserStatus(users: seq<User>, id: string): (r: seq<User>)
    ensures |r| == |users|
    ensures forall i :: 0 <= i < |users| && users[i].id == id ==>
      r[i].active == Some(Flipped(users[i].active)) && r[i] == users[i].(active := r[i].active)
    ensures forall i :: 0 <= i < |users| && users[i].id != id ==> r[i] == users[i]
  {
    JsArray.Map(users, (u: User) => if u.id == id then u.(active := Some(Flipped(u.active))) else u)
  }

  /** Toggling twice restores the list when the users concerned have an explicit `active`. */
  lemma ToggleTwiceRestores(users: seq<User>, id: string)
    requires forall u :: u in users && u.id == id ==> u.active.Some?
    ensures ToggleUserStatus(ToggleUserStatus(users, id), id) == users
  {
    var once := ToggleUserStatus(users, id);
    var twice := ToggleUserStatus(once, id);
    forall i | 0 <= i < |users|
      ensures twice[i] == users[i]
    {
      assert users[i] in users;
    }
  }

  /**
   * A user without `active` is shown active by the dialog, while the toggle
   * reads it as inactive: two toggles leave it explicitly inactive.
   */
  lemma ToggleTwiceOfUnsetUser(u: User)
    requires u.active.None?
    ensures DialogFor(Some(u)).active
    ensures ToggleUserStatus(ToggleUserStatus([u], u.id), u.id) == [u.(active := Some(false))]
  {
  }

  function UserKeeper(id: string): User -> bool {
    (u: User) => u.id != id
  }

  /**
   * `handleDeleteUser`: once the user confirms, the list keeps exactly the
   * users with another `_id`; without confirmation nothing changes.
   */
  function DeleteUser(users: seq<User>, id: string, confirmed: bool): (r: seq<User>)
    ensures !confirmed ==> r == users
    ensures confirmed ==> forall u :: u in r <==> u in users && u.id != id
  {
    if confirmed then JsArray.Filter(users, UserKeeper(id)) else users
  }

  /** The users that survive a deletion keep their order. */
  lemma DeleteUserKeepsOrder(users: seq<User>, id: string)
    ensures JsArray.Sublist(DeleteUser(users, id, true), users)
  {
    JsArray.FilterIsSublist(users, UserKeeper(id));
  }

  // ----- Tabs and search -----

  /** The role a tab shows: tabs 1 to 3, any other tab shows every role. */
  function TabRole(tab: int): (r: Option<Role>)
    ensures r.Some? <==> 1 <= tab <= 3
    ensures tab == 1 ==> r == Some(Admin)
    ensures tab == 2 ==> r == Some(Driver)
    ensures tab == 3 ==> r == Some(Customer)
  {
    if tab == 1 then Some(Admin)
    else if tab == 2 then Some(Driver)
    else if tab == 3 then Some(Customer)
    else None
  }

  predicate UserMatches(u: User, query: string) {
    JsString.MatchesIgnoringCase(u.name, query) || JsString.MatchesIgnoringCase(u.email, query)
  }

  predicate Shown(u: User, tab: int, query: string) {
    (TabRole(tab).None? || u.role == TabRole(tab).value) && UserMatches(u, query)
  }

  function UserView(tab: int, query: string): User -> bool {
    (u: User) => Shown(u, tab, query)
  }

  /**
   * `filteredUsers`: the users of the tab's role whose name or e-mail
   * contains the query, ignoring case, in their order.
   */
  function FilteredUsers(users: seq<User>, tab: int, query: string): (r: seq<User>)
    ensures forall u :: u in r <==> u in users && Shown(u, tab, query)
    ensures 1 <= tab <= 3 ==> forall u :: u in r ==> u.role == TabRole(tab).value
  {
    JsArray.Filter(users, UserView(tab, query))
  }

  /** The filtered list is an order-preserving sub-list of the users. */
  lemma FilteredUsersKeepOrder(users: seq<User>, tab: int, query: string)
    ensures JsArray.Sublist(FilteredUsers(users, tab, query), users)
  {
    JsArray.FilterIsSublist(users, UserView(tab, query));
  }

  /** The first tab with an empty search shows every user. */
  lemma AllTabEmptySearchShowsAll(users: seq<User>)
    ensures FilteredUsers(users, 0, "") == users
  {
    forall u | u in users
      ensures UserView(0, "")(u)
    {
      JsString.EmptyQueryMatches(u.name);
    }
    JsArray.FilterKeepsAll(users, UserView(0, ""));
  }
}
