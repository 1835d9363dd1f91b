/**
 * CustomUserDetails: the security principal built from a stored account. The
 * username and password (hash) are copied; every role becomes one authority, the
 * role's name upper-cased; the four account-status flags are constant true.
 */
module Details {
  import opened Entities

  datatype CustomUserDetails = CustomUserDetails(username: string, password: string, authorities: seq<string>)
  {
    predicate IsAccountNonExpired() { true }
    predicate IsAccountNonLocked() { true }
    predicate IsCredentialsNonExpired() { true }
    predicate IsEnabled() { true }
  }

  // ---------------------------------------------------------------------------
  // Upper-casing, ASCII only.

  function UpperChar(c: char): char {
    if 'a' <= c <= 'z' then (c as int - 'a' as int + 'A' as int) as char else c
  }

  function ToUpper(s: string): (u: string)
    ensures |u| == |s|
    ensures forall i | 0 <= i < |s| :: u[i] == UpperChar(s[i])
  {
    seq(|s|, i requires 0 <= i < |s| => UpperChar(s[i]))
  }

  /** Upper-casing leaves no lowercase letter and is idempotent. */
  lemma ToUpperIdempotent(s: string)
    ensures forall i | 0 <= i < |ToUpper(s)| :: !('a' <= ToUpper(s)[i] <= 'z')
    ensures ToUpper(ToUpper(s)) == ToUpper(s)
  {
  }

  // ---------------------------------------------------------------------------
  // The role set is iterated in some order; the authorities follow that order.

  /** `order` lists every role of `roles` exactly once. */
  ghost predicate Enumerates(order: seq<UserRole>, roles: set<UserRole>) {
    && |order| == |roles|
    && (forall r :: r in roles <==> r in order)
    && (forall i, j | 0 <= i < j < |order| :: order[i] != order[j])
  }

  /** One authority per role, in the iteration order. */
  function AuthoritiesOf(order: seq<UserRole>): (auths: seq<string>)
    ensures |auths| == |order|
  {
    if order == [] then [] else AuthoritiesOf(order[..|order| - 1]) + [ToUpper(order[|order| - 1].name)]
  }

  lemma {:induction false} AuthoritiesOfIndex(order: seq<UserRole>, i: int)
    requires 0 <= i < |order|
    ensures AuthoritiesOf(order)[i] == ToUpper(order[i].name)
    decreases |order|
  {
    if i < |order| - 1 {
      AuthoritiesOfIndex(order[..|order| - 1], i);
    }
  }

  /**
   * `d` is a principal for `user`: the same username and password, and one
   * upper-cased authority per role in some iteration order of the role set.
   */
  ghost predicate DetailsOf(user: UserInfo, d: CustomUserDetails) {
    && d.username == user.username && d.password == user.password
    && exists order :: Enumerates(order, user.roles) && d.authorities == AuthoritiesOf(order)
  }

  /**
   * The constructor: copies username and password and appends the upper-cased
   * name of each role to the authority list.
   */
  method NewCustomUserDetails(user: UserInfo) returns (d: CustomUserDetails)
    ensures DetailsOf(user, d)
    ensures |d.authorities| == |user.roles|
  {
    var auths: seq<string> := [];
    var remaining := user.roles;
    ghost var order: seq<UserRole> := [];
    while remaining != {}
      invariant remaining <= user.roles
      invariant forall r :: r in user.roles <==> (r in order || r in remaining)
      invariant forall r | r in order :: r !in remaining
      invariant forall i, j | 0 <= i < j < |order| :: order[i] != order[j]
      invariant |order| + |remaining| == |user.roles|
      invariant auths == AuthoritiesOf(order)
      decreases |remaining|
    {
      var r :| r in remaining;
      assert order + [r] != [] && (order + [r])[..|order|] == order;
      auths := auths + [ToUpper(r.name)];
      order := order + [r];
      remaining := remaining - {r};
    }
    d := CustomUserDetails(user.username, user.password, auths);
    assert Enumerates(order, user.roles);
  }

  // ---------------------------------------------------------------------------
  // Properties of the projection.

  /** Each authority is some role's upper-cased name, and each role yields one. */
  lemma AuthoritiesMatchRoles(order: seq<UserRole>, roles: set<UserRole>)
    requires Enumerates(order, roles)
    ensures forall r | r in roles :: ToUpper(r.name) in AuthoritiesOf(order)
    ensures forall a | a in AuthoritiesOf(order) :: exists r | r in roles :: a == ToUpper(r.name)
  {
    var auths := AuthoritiesOf(order);
    forall r | r in roles
      ensures ToUpper(r.name) in auths
    {
      var i :| 0 <= i < |order| && order[i] == r;
      AuthoritiesOfIndex(order, i);
    }
    forall a | a in auths
      ensures exists r | r in roles :: a == ToUpper(r.name)
    {
      var i :| 0 <= i < |auths| && auths[i] == a;
      AuthoritiesOfIndex(order, i);
      assert order[i] in roles;
    }
  }

  /**
   * Two roles whose names differ only in case give the same authority twice:
   * the list keeps one entry per role, not one per distinct authority.
   */
  lemma CaseVariantRolesCollide(order: seq<UserRole>, lower: UserRole, upper: UserRole)
    requires lower.name == "admin" && upper.name == "ADMIN" && lower.roleId != upper.roleId
    requires Enumerates(order, {lower, upper})
    ensures |AuthoritiesOf(order)| == 2
    ensures AuthoritiesOf(order)[0] == AuthoritiesOf(order)[1] == "ADMIN"
  {
    assert |{lower, upper}| == 2;
    AuthoritiesOfIndex(order, 0);
    AuthoritiesOfIndex(order, 1);
    assert order[0] in {lower, upper} && order[1] in {lower, upper};
    assert ToUpper("admin") == "ADMIN";
    assert ToUpper("ADMIN") == "ADMIN";
  }

  /** The four status flags hold for every principal. */
  lemma StatusFlagsAlwaysTrue(d: CustomUserDetails)
    ensures d.IsAccountNonExpired() && d.IsAccountNonLocked() && d.IsCredentialsNonExpired() && d.IsEnabled()
  {
  }
}
