/**
 * `AuthServiceLogin.login`: a token for a stored member whose password
 * matches, otherwise one of two errors. The member table is a map from mid
 * to member; the password encoder's `matches` and the JWT generator are
 * parameters.
 */
module AuthLogin {
  import opened Wrappers

  /** A stored member, as far as login reads it: the id and the password hash. */
  datatype Member = Member(mid: string, mpassword: string)

  /** The submitted credentials. */
  datatype LoginRequest = LoginRequest(mid: string, mpassword: string)

  /** `UsernameNotFoundException` and `BadCredentialsException`. */
  datatype LoginError = UsernameNotFound | BadCredentials

  /**
   * The existence check comes first, so an unknown id never reports bad
   * credentials; a known id gets its token only if the raw password matches
   * the stored hash.
   */
  function Login(dto: LoginRequest, members: map<string, Member>,
                 matches: (string, string) -> bool, createToken: Member -> string): (r: Result<string, LoginError>)
    ensures r == Failure(UsernameNotFound) <==> dto.mid !in members
    ensures r == Failure(BadCredentials) <==> dto.mid in members && !matches(dto.mpassword, members[dto.mid].mpassword)
    ensures r.Success? <==> dto.mid in members && matches(dto.mpassword, members[dto.mid].mpassword)
    ensures r.Success? ==> r.value == createToken(members[dto.mid])
  {
    if dto.mid !in members then Failure(UsernameNotFound)
    else
      var member := members[dto.mid];
      if !matches(dto.mpassword, member.mpassword) then Failure(BadCredentials)
      else Success(createToken(member))
  }

  /**
   * For one token generator, the token is computed from the stored member
   * alone: the raw password only decides whether a token is issued, so two
   * successful logins with the same id and different passwords give the same
   * answer.
   */
  lemma TokenDependsOnMemberOnly(a: LoginRequest, b: LoginRequest, members: map<string, Member>,
                                 matches: (string, string) -> bool, createToken: Member -> string)
    requires a.mid == b.mid
    requires Login(a, members, matches, createToken).Success? && Login(b, members, matches, createToken).Success?
    ensures Login(a, members, matches, createToken) == Login(b, members, matches, createToken)
  {
  }

  /** Adding other members does not change the outcome of a login. */
  lemma OtherMembersIrrelevant(dto: LoginRequest, members: map<string, Member>, other: string, m: Member,
                               matches: (string, string) -> bool, createToken: Member -> string)
    requires other != dto.mid
    ensures Login(dto, members[other := m], matches, createToken) == Login(dto, members, matches, createToken)
  {
  }
}
