/**
 * `AuthServiceImpl`: local signup and login, logout, and the Kakao login flow that
 * either logs an existing user in or hands a new one a temporary signup token.
 *
 * The user table, the refresh-token store, the access-token blacklist and the cookies
 * written to the HTTP response are the fields of `Auth`. The password encoder, the
 * JWT issuer, S3 and the Kakao token store are deterministic functions fixed when
 * the service is built (`Collaborators`).
 */
module AuthService {
  import opened Wrappers

  datatype Gender = Male | Female | Other

  /** `Gender.valueOf`: the constant with exactly that name, if there is one. */
  function GenderValueOf(name: string): (r: Option<Gender>)
    ensures r.Some? <==> name == "MALE" || name == "FEMALE" || name == "OTHER"
    ensures r == Some(Male) ==> name == "MALE"
    ensures r == Some(Female) ==> name == "FEMALE"
    ensures r == Some(Other) ==> name == "OTHER"
  {
    if name == "MALE" then Some(Male)
    else if name == "FEMALE" then Some(Female)
    else if name == "OTHER" then Some(Other)
    else None
  }

  /**
   * A stored user. Local users have an encoded password and no Kakao id; Kakao users
   * have no password.
   */
  datatype User = User(
    id: int,
    email: string,
    password: Option<string>,
    nickname: string,
    birth: string,
    gender: Gender,
    profileImage: string,
    kakaoId: Option<int>,
    isSocial: bool)

  datatype SignupRequest = SignupRequest(email: string, password: string, nickname: string, birth: string, gender: string)

  datatype LoginRequest = LoginRequest(email: string, password: string)

  /** An uploaded file; it is empty when it has no content. */
  datatype Upload = Upload(content: seq<bv8>)

  /** The parts of Kakao's user profile the service reads. */
  datatype KakaoProfile = KakaoProfile(
    kakaoId: int,
    email: string,
    nickname: string,
    profileImageNeedsAgreement: bool,
    isDefaultImage: bool,
    profileImageUrl: string)

  /** What a new Kakao user has filled in before signing up (`TempUserDto`). */
  datatype TempUser = TempUser(email: string, nickname: string, kakaoId: int, profileImage: string, socialLogin: bool)

  datatype KakaoSignupRequest = KakaoSignupRequest(
    email: string,
    nickname: string,
    birth: string,
    gender: string,
    profileImage: string,
    kakaoId: int,
    isSocial: bool)

  datatype Cookie = RefreshTokenCookie(token: string) | ExpiredRefreshTokenCookie

  datatype LoginResponse = LoginResponse(accessToken: string, user: User)

  datatype DeepLinkResponse = DeepLinkResponse(deepLink: string, isNewUser: bool)

  datatype AuthError = EmailAlreadyExists | NicknameAlreadyExists | UserNotFound | PasswordMismatch | InvalidGender

  datatype Collaborators = Collaborators(
    encode: string -> string,
    matches: (string, Option<string>) -> bool,
    uploadFile: Upload -> string,
    defaultProfileImageUrl: string,
    createAccessToken: (string, int) -> string,
    createRefreshToken: (string, int) -> string,
    emailOfToken: string -> string,
    kakaoLoginToken: LoginResponse -> string,
    kakaoTempToken: TempUser -> string)

  /** `existsByNickname`. */
  predicate NicknameTaken(users: map<string, User>, nickname: string) {
    exists e :: e in users && users[e].nickname == nickname
  }

  /** The profile image of a local signup: the uploaded file if there is a non-empty one, else the default. */
  function ProfileImageUrl(env: Collaborators, profileImage: Option<Upload>): (url: string)
    ensures profileImage.Some? && |profileImage.value.content| > 0 ==> url == env.uploadFile(profileImage.value)
    ensures profileImage.None? || profileImage.value.content == [] ==> url == env.defaultProfileImageUrl
  {
    if profileImage.Some? && |profileImage.value.content| > 0 then env.uploadFile(profileImage.value)
    else env.defaultProfileImageUrl
  }

  /**
   * `createTempUserDto`: a new Kakao user's email, nickname and id, always a social
   * login, with Kakao's profile image only when the user agreed to share it and it is
   * not Kakao's default image.
   */
  function CreateTempUser(profile: KakaoProfile, defaultImage: string): (t: TempUser)
    ensures t.email == profile.email && t.nickname == profile.nickname && t.kakaoId == profile.kakaoId
    ensures t.socialLogin
    ensures profile.profileImageNeedsAgreement || profile.isDefaultImage ==> t.profileImage == defaultImage
    ensures !profile.profileImageNeedsAgreement && !profile.isDefaultImage ==> t.profileImage == profile.profileImageUrl
  {
    var image :=
      if !profile.profileImageNeedsAgreement then
        if profile.isDefaultImage then defaultImage else profile.profileImageUrl
      else defaultImage;
    TempUser(profile.email, profile.nickname, profile.kakaoId, image, true)
  }

  const LoginLinkPrefix: string := "ollana://auth/oauth/kakao?status=login&login_token="
  const SignupLinkPrefix: string := "ollana://auth/oauth/kakao?status=signup&temp_token="

  /** The deep link back into the app: a login token for a known user, a signup token for a new one. */
  function DeepLink(isNewUser: bool, token: string): (link: string)
    ensures isNewUser ==> SignupLinkPrefix <= link
    ensures !isNewUser ==> LoginLinkPrefix <= link
    ensures |token| <= |link| && link[|link| - |token|..] == token
  {
    if isNewUser then SignupLinkPrefix + token else LoginLinkPrefix + token
  }

  /** How the app reads a deep link: whether it is a signup, and the token it carries. */
  function ReadDeepLink(link: string): (r: Option<(bool, string)>) {
    if LoginLinkPrefix <= link then Some((false, link[|LoginLinkPrefix|..]))
    else if SignupLinkPrefix <= link then Some((true, link[|SignupLinkPrefix|..]))
    else None
  }

  /** A deep link is read back as the status and the token it was built from. */
  lemma DeepLinkRoundTrip(isNewUser: bool, token: string)
    ensures ReadDeepLink(DeepLink(isNewUser, token)) == Some((isNewUser, token))
  {
    var link := DeepLink(isNewUser, token);
    if isNewUser {
      assert link[33] == 's' != LoginLinkPrefix[33];
      assert SignupLinkPrefix <= link;
      assert link[|SignupLinkPrefix|..] == token;
    } else {
      assert LoginLinkPrefix <= link;
      assert link[|LoginLinkPrefix|..] == token;
    }
  }

  class Auth {
    const env: Collaborators
    /** The user table, keyed by its unique email column. */
    var users: map<string, User>
    /** The id the next saved user receives. */
    var nextUserId: int
    /** The refresh-token store: user email to that user's current refresh token. */
    var refreshTokens: map<string, string>
    /** The access-token blacklist: token to the reason it was revoked. */
    var blacklist: map<string, string>
    /** The cookies added to the HTTP responses, in order. */
    var cookies: seq<Cookie>

    /** Emails and nicknames are unique, ids are distinct, and every id was handed out. */
    ghost predicate Valid()
      reads this
    {
      && 0 < nextUserId
      && (forall e :: e in users ==> users[e].email == e && 0 < users[e].id < nextUserId)
      && (forall e, f :: e in users && f in users && e != f ==>
            users[e].nickname != users[f].nickname && users[e].id != users[f].id)
    }

    constructor(collaborators: Collaborators)
      ensures Valid()
      ensures env == collaborators
      ensures users == map[] && nextUserId == 1
      ensures refreshTokens == map[] && blacklist == map[] && cookies == []
    {
      env := collaborators;
      users := map[];
      nextUserId := 1;
      refreshTokens := map[];
      blacklist := map[];
      cookies := [];
    }

    /** The refresh token issued to `user`. */
    function RefreshTokenFor(user: User): (token: string) {
      env.createRefreshToken(user.email, user.id)
    }

    /** The login response for `user`, carrying a fresh access token. */
    function ResponseFor(user: User): (response: LoginResponse) {
      LoginResponse(env.createAccessToken(user.email, user.id), user)
    }

    /** `user` was logged in: its refresh token is stored and sent as a cookie, nothing else changed. */
    twostate predicate LoggedIn(user: User)
      reads this
    {
      && users == old(users) && nextUserId == old(nextUserId)
      && refreshTokens == old(refreshTokens)[user.email := RefreshTokenFor(user)]
      && cookies == old(cookies) + [RefreshTokenCookie(RefreshTokenFor(user))]
      && blacklist == old(blacklist)
    }

    /** `userRepository.save`: stores `user` under the next id. */
    method Save(user: User) returns (saved: User)
      requires Valid()
      requires user.email !in users && !NicknameTaken(users, user.nickname)
      modifies this
      ensures Valid()
      ensures saved == user.(id := old(nextUserId))
      ensures users == old(users)[user.email := saved] && nextUserId == old(nextUserId) + 1
      ensures refreshTokens == old(refreshTokens) && blacklist == old(blacklist) && cookies == old(cookies)
    {
      saved := user.(id := nextUserId);
      users := users[user.email := saved];
      nextUserId := nextUserId + 1;
    }

    /**
     * `signup`: refuses a taken email, then a taken nickname, then an unknown gender;
     * otherwise stores a local user with the encoded password.
     */
    method Signup(request: SignupRequest, profileImage: Option<Upload>) returns (r: Outcome<AuthError>)
      requires Valid()
      modifies this
      ensures Valid()
      ensures r == Fail(EmailAlreadyExists) <==> request.email in old(users)
      ensures r == Fail(NicknameAlreadyExists) <==> request.email !in old(users) && NicknameTaken(old(users), request.nickname)
      ensures r == Fail(InvalidGender) <==>
        request.email !in old(users) && !NicknameTaken(old(users), request.nickname) && GenderValueOf(request.gender).None?
      ensures r.Pass? <==>
        request.email !in old(users) && !NicknameTaken(old(users), request.nickname) && GenderValueOf(request.gender).Some?
      ensures r.Fail? ==> users == old(users) && nextUserId == old(nextUserId)
      ensures r.Pass? ==>
        && GenderValueOf(request.gender).Some?
        && users == old(users)[request.email := User(
             old(nextUserId), request.email, Some(env.encode(request.password)), request.nickname, request.birth,
             GenderValueOf(request.gender).value, ProfileImageUrl(env, profileImage), None, false)]
        && nextUserId == old(nextUserId) + 1
      ensures refreshTokens == old(refreshTokens) && blacklist == old(blacklist) && cookies == old(cookies)
    {
      if request.email in users {
        return Fail(EmailAlreadyExists);
      }
      if NicknameTaken(users, request.nickname) {
        return Fail(NicknameAlreadyExists);
      }
      var encodedPassword := env.encode(request.password);
      var profileImageUrl := ProfileImageUrl(env, profileImage);
      var gender := GenderValueOf(request.gender);
      if gender.None? {
        return Fail(InvalidGender);
      }
      var user := User(0, request.email, Some(encodedPassword), request.nickname, request.birth, gender.value, profileImageUrl, None, false);
      var _ := Save(user);
      return Pass;
    }

    /** `generateAuthTokensAndResponse`: stores and sends a refresh token and answers with an access token. */
    method GenerateAuthTokensAndResponse(user: User) returns (response: LoginResponse)
      modifies this
      ensures response == ResponseFor(user)
      ensures LoggedIn(user)
    {
      var accessToken := env.createAccessToken(user.email, user.id);
      var refreshToken := env.createRefreshToken(user.email, user.id);
      refreshTokens := refreshTokens[user.email := refreshToken];
      cookies := cookies + [RefreshTokenCookie(refreshToken)];
      response := LoginResponse(accessToken, user);
    }

    /** `login`: an unknown email, then a wrong password, is refused; otherwise the user is logged in. */
    method Login(request: LoginRequest) returns (r: Result<LoginResponse, AuthError>)
      requires Valid()
      modifies this
      ensures Valid()
      ensures r == Failure(UserNotFound) <==> request.email !in old(users)
      ensures r == Failure(PasswordMismatch) <==>
        request.email in old(users) && !env.matches(request.password, old(users)[request.email].password)
      ensures r.Success? <==> request.email in old(users) && env.matches(request.password, old(users)[request.email].password)
      ensures r.Failure? ==> unchanged(this)
      ensures r.Success? ==>
        && r.value == ResponseFor(old(users)[request.email])
        && LoggedIn(old(users)[request.email])
    {
      if request.email !in users {
        return Failure(UserNotFound);
      }
      var user := users[request.email];
      if !env.matches(request.password, user.password) {
        return Failure(PasswordMismatch);
      }
      var response := GenerateAuthTokensAndResponse(user);
      return Success(response);
    }

    /**
     * `logout`: forgets the refresh token of the user named by the refresh-token cookie,
     * blacklists the access token of the request, and sends an expired cookie; each
     * token is optional in the request.
     */
    method Logout(refreshCookie: Option<string>, accessHeader: Option<string>)
      modifies this
      ensures refreshTokens == if refreshCookie.Some? then old(refreshTokens) - {env.emailOfToken(refreshCookie.value)} else old(refreshTokens)
      ensures blacklist == if accessHeader.Some? then old(blacklist)[accessHeader.value := "logout"] else old(blacklist)
      ensures cookies == old(cookies) + [ExpiredRefreshTokenCookie]
      ensures users == old(users) && nextUserId == old(nextUserId)
    {
      if refreshCookie.Some? {
        var userEmail := env.emailOfToken(refreshCookie.value);
        refreshTokens := refreshTokens - {userEmail};
      }
      if accessHeader.Some? {
        blacklist := blacklist[accessHeader.value := "logout"];
      }
      cookies := cookies + [ExpiredRefreshTokenCookie];
    }

    /** `kakaoLogin`: logs in the user with the Kakao account's email, if there is one. */
    method KakaoLogin(profile: KakaoProfile) returns (r: Option<LoginResponse>)
      modifies this
      ensures r.Some? <==> profile.email in old(users)
      ensures r.Some? ==> r.value == ResponseFor(old(users)[profile.email]) && LoggedIn(old(users)[profile.email])
      ensures r.None? ==> unchanged(this)
    {
      if profile.email in users {
        var response := GenerateAuthTokensAndResponse(users[profile.email]);
        return Some(response);
      }
      return None;
    }

    /**
     * `processKakaoLogin`: a known email is logged in and sent back with a login token;
     * an unknown one is sent back with a temporary token for the signup form.
     */
    method ProcessKakaoLogin(profile: KakaoProfile) returns (r: DeepLinkResponse)
      modifies this
      ensures r.isNewUser <==> profile.email !in old(users)
      ensures !r.isNewUser ==>
        && r.deepLink == DeepLink(false, env.kakaoLoginToken(ResponseFor(old(users)[profile.email])))
        && LoggedIn(old(users)[profile.email])
      ensures r.isNewUser ==>
        && r.deepLink == DeepLink(true, env.kakaoTempToken(CreateTempUser(profile, env.defaultProfileImageUrl)))
        && unchanged(this)
      ensures ReadDeepLink(r.deepLink).Some? && ReadDeepLink(r.deepLink).value.0 == r.isNewUser
    {
      var loginResponse := KakaoLogin(profile);
      if loginResponse.Some? {
        var loginToken := env.kakaoLoginToken(loginResponse.value);
        r := DeepLinkResponse(LoginLinkPrefix + loginToken, false);
        DeepLinkRoundTrip(false, loginToken);
      } else {
        var tempUser := CreateTempUser(profile, env.defaultProfileImageUrl);
        var tempToken := env.kakaoTempToken(tempUser);
        r := DeepLinkResponse(SignupLinkPrefix + tempToken, true);
        DeepLinkRoundTrip(true, tempToken);
      }
    }

    /**
     * `saveKakaoUserAndLogin`: refuses a taken email, then a taken nickname, then an
     * unknown gender; otherwise stores a Kakao user without a password and logs it in.
     */
    method SaveKakaoUserAndLogin(request: KakaoSignupRequest) returns (r: Result<LoginResponse, AuthError>)
      requires Valid()
      modifies this
      ensures Valid()
      ensures r == Failure(EmailAlreadyExists) <==> request.email in old(users)
      ensures r == Failure(NicknameAlreadyExists) <==> request.email !in old(users) && NicknameTaken(old(users), request.nickname)
      ensures r == Failure(InvalidGender) <==>
        request.email !in old(users) && !NicknameTaken(old(users), request.nickname) && GenderValueOf(request.gender).None?
      ensures r.Success? <==>
        request.email !in old(users) && !NicknameTaken(old(users), request.nickname) && GenderValueOf(request.gender).Some?
      ensures r.Failure? ==> unchanged(this)
      ensures r.Success? ==>
        var saved := User(
          old(nextUserId), request.email, None, request.nickname, request.birth,
          GenderValueOf(request.gender).value, request.profileImage, Some(request.kakaoId), request.isSocial);
        && GenderValueOf(request.gender).Some?
        && users == old(users)[request.email := saved] && nextUserId == old(nextUserId) + 1
        && r.value == ResponseFor(saved)
        && refreshTokens == old(refreshTokens)[request.email := RefreshTokenFor(saved)]
        && cookies == old(cookies) + [RefreshTokenCookie(RefreshTokenFor(saved))]
        && blacklist == old(blacklist)
    {
      if request.email in users {
        return Failure(EmailAlreadyExists);
      }
      if NicknameTaken(users, request.nickname) {
        return Failure(NicknameAlreadyExists);
      }
      var gender := GenderValueOf(request.gender);
      if gender.None? {
        return Failure(InvalidGender);
      }
      var newUser := User(
        0, request.email, None, request.nickname, request.birth, gender.value,
        request.profileImage, Some(request.kakaoId), request.isSocial);
      var saved := Save(newUser);
      var response := GenerateAuthTokensAndResponse(saved);
      return Success(response);
    }
  }
}
