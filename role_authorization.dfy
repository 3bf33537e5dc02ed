/** The role gate put on controllers and actions: an unauthenticated caller is refused as
    unauthorized, an authenticated one whose role is not listed is forbidden, anyone else
    passes. */
module RoleAuthorization {
  import opened Wrappers
  import opened Strings

  /** `ClaimTypes.Role`. */
  const RoleClaimType: string := "http://schemas.microsoft.com/ws/2008/06/identity/claims/role"

  datatype Claim = Claim(claimType: string, value: string)

  /** One identity of the request: whether it is authenticated, and its claims in order. */
  datatype Identity = Identity(isAuthenticated: bool, claims: seq<Claim>)

  /** `HttpContext.User`: its identities in order. `User.Identity` is the first of them, and
      there is none when the list is empty. */
  datatype Principal = Principal(identities: seq<Identity>)

  /** `Result` left unset is `Allow`. */
  datatype Decision = Unauthorized | Forbid | Allow

  /** `StringComparison.OrdinalIgnoreCase`, with case folded on ASCII letters. */
  predicate EqualsIgnoreCase(a: string, b: string) {
    |a| == |b| && forall i :: 0 <= i < |a| ==> LowerChar(a[i]) == LowerChar(b[i])
  }

  /** The test `ClaimsIdentity.FindFirst` applies to a claim's type. */
  predicate IsRoleType(t: string) { EqualsIgnoreCase(t, RoleClaimType) }

  /** `ClaimsIdentity.FindFirst(ClaimTypes.Role)?.Value`: the value of the identity's first
      claim whose type is the role type up to case, if any. */
  function FirstRole(claims: seq<Claim>): (r: Option<string>)
    ensures r.None? <==> forall i :: 0 <= i < |claims| ==> !IsRoleType(claims[i].claimType)
    ensures r.Some? ==> exists i :: && 0 <= i < |claims| && IsRoleType(claims[i].claimType)
                                    && claims[i].value == r.value
                                    && forall j :: 0 <= j < i ==> !IsRoleType(claims[j].claimType)
  {
    if claims == [] then None
    else if IsRoleType(claims[0].claimType) then Some(claims[0].value)
    else
      var r := FirstRole(claims[1..]);
      if r.Some? then
        var i :| && 0 <= i < |claims[1..]| && IsRoleType(claims[1..][i].claimType)
                 && claims[1..][i].value == r.value
                 && forall j :: 0 <= j < i ==> !IsRoleType(claims[1..][j].claimType);
        assert claims[i + 1] == claims[1..][i];
        r
      else r
  }

  /** `ClaimsPrincipal.FindFirst(ClaimTypes.Role)?.Value`: the identities are searched in order,
      whether authenticated or not, and the first one holding a role claim answers. */
  function FindRole(identities: seq<Identity>): Option<string> {
    if identities == [] then None
    else if FirstRole(identities[0].claims).Some? then FirstRole(identities[0].claims)
    else FindRole(identities[1..])
  }

  /** The principal has no role exactly when none of its identities has one. */
  lemma {:induction false} FindRoleNone(identities: seq<Identity>)
    ensures FindRole(identities).None? <==>
              forall k :: 0 <= k < |identities| ==> FirstRole(identities[k].claims).None?
  {
    if identities != [] && FirstRole(identities[0].claims).None? {
      var rest := identities[1..];
      FindRoleNone(rest);
      assert forall k :: 0 <= k < |rest| ==> rest[k] == identities[k + 1];
      assert identities == [identities[0]] + rest;
    }
  }

  /** A principal's role is the role of its first identity that has one. */
  lemma {:induction false} FindRoleSome(identities: seq<Identity>) returns (k: nat)
    requires FindRole(identities).Some?
    ensures k < |identities| && FirstRole(identities[k].claims) == FindRole(identities)
    ensures forall m :: 0 <= m < k ==> FirstRole(identities[m].claims).None?
  {
    if FirstRole(identities[0].claims).Some? {
      k := 0;
    } else {
      var rest := identities[1..];
      var j := FindRoleSome(rest);
      k := j + 1;
      assert forall m :: 0 < m <= k ==> identities[m] == rest[m - 1];
    }
  }

  /** `User.Identity?.IsAuthenticated ?? false`. */
  predicate IsAuthenticated(user: Principal) {
    user.identities != [] && user.identities[0].isAuthenticated
  }

  /** `OnAuthorization`: no identity counts as unauthenticated; the role must be one of
      `roles` exactly, with case. */
  function Authorize(user: Principal, roles: seq<string>): (d: Decision)
    ensures d == Unauthorized <==> !IsAuthenticated(user)
    ensures d == Allow <==> && IsAuthenticated(user)
                            && FindRole(user.identities).Some?
                            && FindRole(user.identities).value in roles
  {
    if !IsAuthenticated(user) then Unauthorized
    else
      var role := FindRole(user.identities);
      if role.None? || role.value !in roles then Forbid else Allow
  }

  /** An unauthenticated caller is unauthorized whatever the roles allowed. */
  lemma UnauthenticatedWhateverRoles(user: Principal, roles: seq<string>, others: seq<string>)
    requires !IsAuthenticated(user)
    ensures Authorize(user, roles) == Authorize(user, others) == Unauthorized
  {
  }

  /** With no roles listed every authenticated caller is forbidden. */
  lemma EmptyRolesForbidAll(user: Principal)
    requires IsAuthenticated(user)
    ensures Authorize(user, []) == Forbid
  {
  }

  /** Listing more roles never turns an allowed caller away. */
  lemma MoreRolesAllowMore(user: Principal, roles: seq<string>, more: seq<string>)
    requires forall r :: r in roles ==> r in more
    requires Authorize(user, roles) == Allow
    ensures Authorize(user, more) == Allow
  {
  }

  /** Only the first role claim is looked at: a listed role in a later claim does not help. */
  lemma LaterRoleIgnored(role: string, other: string)
    requires role != other
    ensures Authorize(Principal([Identity(true, [Claim(RoleClaimType, other), Claim(RoleClaimType, role)])]), [role]) == Forbid
  {
    var claims := [Claim(RoleClaimType, other), Claim(RoleClaimType, role)];
    assert IsRoleType(RoleClaimType);
    assert FirstRole(claims) == Some(other);
  }

  /** A role claim of a later identity answers when the earlier identities hold none, and that
      identity need not be authenticated itself. */
  lemma LaterIdentitySearched(first: Identity, second: Identity, role: string)
    requires first.isAuthenticated && FirstRole(first.claims).None?
    requires FirstRole(second.claims) == Some(role)
    ensures Authorize(Principal([first, second]), [role]) == Allow
  {
    var ids := [first, second];
    assert ids[1..] == [second];
    assert FindRole(ids[1..]) == Some(role);
  }

  lemma {:induction false} IgnoreCaseSameRoleType(a: string, b: string)
    requires Lower(a) == Lower(b)
    ensures IsRoleType(a) <==> IsRoleType(b)
  {
    assert |a| == |Lower(a)| == |Lower(b)| == |b|;
    forall i | 0 <= i < |a| ensures LowerChar(a[i]) == LowerChar(b[i]) {
      assert Lower(a)[i] == Lower(b)[i];
    }
  }

  /** The claim type is matched without regard to case: claims whose types differ only in the
      case of ASCII letters give the same role. */
  lemma {:induction false} RoleTypeCaseIgnored(claims: seq<Claim>, others: seq<Claim>)
    requires |claims| == |others|
    requires forall i :: 0 <= i < |claims| ==>
               claims[i].value == others[i].value && Lower(claims[i].claimType) == Lower(others[i].claimType)
    ensures FirstRole(claims) == FirstRole(others)
  {
    if claims != [] {
      IgnoreCaseSameRoleType(claims[0].claimType, others[0].claimType);
      RoleTypeCaseIgnored(claims[1..], others[1..]);
    }
  }

  /** Role names are compared exactly: "Admin" does not pass a gate for "admin". */
  lemma RoleCaseMatters()
    ensures Authorize(Principal([Identity(true, [Claim(RoleClaimType, "Admin")])]), ["admin"]) == Forbid
  {
    var claims := [Claim(RoleClaimType, "Admin")];
    assert IsRoleType(RoleClaimType);
    assert FirstRole(claims) == Some("Admin");
    assert "Admin" != "admin" by {
      assert "Admin"[0] != "admin"[0];
    }
  }
}
