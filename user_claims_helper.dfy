/**
 * UserClaimsHelper.GetUserDetails: who is calling, read from the claims of the
 * request's principal. It fails closed: a missing claim is an authorisation failure.
 */
module UserClaimsHelper {
  import opened Wrappers
  import opened Guids
  import opened Entities
  import Query

  /** One claim of the principal: its type URI and its value. */
  datatype Claim = Claim(claimType: string, value: string)

  /** `ClaimTypes.Name`; the tokens of this system carry the user's id under it. */
  const NameClaimType := "http://schemas.xmlsoap.org/ws/2005/05/identity/claims/name"

  /** `JwtRegisteredClaimNames.Name`; the tokens carry the user name under it. */
  const JwtNameClaimType := "name"

  /** The pair `(UserId, Author)` the helper returns. */
  datatype UserDetails = UserDetails(userId: Guid, author: string)

  ghost predicate HasClaimOfType(claims: seq<Claim>, claimType: string)
  {
    exists i :: 0 <= i < |claims| && claims[i].claimType == claimType
  }

  /** `claims[i]` is the first claim of type `claimType`. */
  ghost predicate IsFirstOfType(claims: seq<Claim>, i: int, claimType: string)
  {
    && 0 <= i < |claims|
    && claims[i].claimType == claimType
    && forall k :: 0 <= k < i ==> claims[k].claimType != claimType
  }

  /** Position of the first claim of type `claimType`. */
  function FirstClaimIndex(claims: seq<Claim>, claimType: string): (r: Option<nat>)
    ensures r.None? <==> !HasClaimOfType(claims, claimType)
    ensures r.Some? ==> IsFirstOfType(claims, r.value, claimType)
  {
    Query.FirstIndex(claims, (c: Claim) => c.claimType == claimType)
  }

  /** Only one position holds the first claim of a type. */
  lemma FirstOfTypeUnique(claims: seq<Claim>, i: int, j: int, claimType: string)
    requires IsFirstOfType(claims, i, claimType) && IsFirstOfType(claims, j, claimType)
    ensures i == j
  {
  }

  /** `User.Claims.FirstOrDefault(claim => claim.Type == claimType)`. */
  function FindClaim(claims: seq<Claim>, claimType: string): (r: Option<Claim>)
    ensures r.None? <==> !HasClaimOfType(claims, claimType)
    ensures r.Some? ==> exists i :: IsFirstOfType(claims, i, claimType) && claims[i] == r.value
  {
    match FirstClaimIndex(claims, claimType)
    case None => None
    case Some(i) => Some(claims[i])
  }

  /**
   * The id claim is looked up first and the name claim second, each failing with
   * UnauthorizedAccessException when absent; only then is the id parsed, a malformed id
   * throwing FormatException (`OtherError`).
   */
  function GetUserDetails(claims: seq<Claim>): (r: Result<UserDetails, Error>)
    ensures !HasClaimOfType(claims, NameClaimType) ==> r == Failure(NotAuthorizedError)
    ensures !HasClaimOfType(claims, JwtNameClaimType) ==> r == Failure(NotAuthorizedError)
    ensures r == Failure(NotAuthorizedError) <==>
      !HasClaimOfType(claims, NameClaimType) || !HasClaimOfType(claims, JwtNameClaimType)
    ensures r == Failure(OtherError) <==>
      && HasClaimOfType(claims, JwtNameClaimType)
      && exists i :: IsFirstOfType(claims, i, NameClaimType) && Parse(claims[i].value).None?
    ensures r != Failure(NotFoundError)
    ensures r.Success? ==>
      exists i, j ::
        && IsFirstOfType(claims, i, NameClaimType)
        && IsFirstOfType(claims, j, JwtNameClaimType)
        && Parse(claims[i].value) == Some(r.value.userId)
        && claims[j].value == r.value.author
  {
    match FindClaim(claims, NameClaimType)
    case None => Failure(NotAuthorizedError)
    case Some(idClaim) =>
      match FindClaim(claims, JwtNameClaimType)
      case None => Failure(NotAuthorizedError)
      case Some(nameClaim) =>
        var i := FirstClaimIndex(claims, NameClaimType).value;
        var j := FirstClaimIndex(claims, JwtNameClaimType).value;
        assert forall k :: IsFirstOfType(claims, k, NameClaimType) ==> k == i by {
          forall k | IsFirstOfType(claims, k, NameClaimType) ensures k == i {
            FirstOfTypeUnique(claims, k, i, NameClaimType);
          }
        }
        match Parse(idClaim.value)
        case None => Failure(OtherError)
        case Some(userId) =>
          assert IsFirstOfType(claims, j, JwtNameClaimType) && claims[j] == nameClaim;
          Success(UserDetails(userId, nameClaim.value))
  }

  /** The claims the unit tests give a signed-in user: its id as text, then its user name. */
  function UserClaims(user: ApplicationUser): seq<Claim>
  {
    [Claim(NameClaimType, Format(user.id)), Claim(JwtNameClaimType, user.userName)]
  }

  /** A signed-in user's claims give back exactly that user's id and name. */
  lemma UserClaimsRoundTrip(user: ApplicationUser)
    ensures GetUserDetails(UserClaims(user)) == Success(UserDetails(user.id, user.userName))
  {
    var claims := UserClaims(user);
    assert |NameClaimType| != |JwtNameClaimType|;
    assert IsFirstOfType(claims, 0, NameClaimType);
    assert IsFirstOfType(claims, 1, JwtNameClaimType);
    FirstOfTypeUnique(claims, 0, FirstClaimIndex(claims, NameClaimType).value, NameClaimType);
    FirstOfTypeUnique(claims, 1, FirstClaimIndex(claims, JwtNameClaimType).value, JwtNameClaimType);
    ParseFormat(user.id);
  }

  /** An anonymous principal carries no claims and is never let through. */
  lemma AnonymousIsRejected()
    ensures GetUserDetails([]) == Failure(NotAuthorizedError)
  {
  }
}
