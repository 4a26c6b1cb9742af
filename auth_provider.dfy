// The AuthProvider of web/src/providers/auth-provider.tsx: the current user
// and the loading flag, the mount-time session check, login and logout. The
// replies of `api.authStatus`, `api.getProfile` and `api.logout` are inputs.
module AuthProvider {
  import opened Common

  datatype GitHubProfile = GitHubProfile(id: int, login: string, name: string, avatarUrl: string, email: string)

  /** How `api.authStatus()` settles. */
  datatype StatusReply = StatusFailed | Status(isLoggedIn: bool)

  /** How `api.getProfile()` settles (only awaited when logged in). */
  datatype ProfileReply = ProfileFailed | Profile(profile: GitHubProfile)

  const LoginPath: string := "/auth/github/login"

  /** The user after checkAuth: set from the profile when logged in and the
      profile arrives, cleared by the catch on any failure, left as it was
      when the status says logged out. */
  function CheckedUser(before: Option<GitHubProfile>, status: StatusReply, profile: ProfileReply): (u: Option<GitHubProfile>)
    ensures u.Some? && u != before ==> status == Status(true) && profile == Profile(u.value)
    ensures status == Status(true) && profile.Profile? ==> u == Some(profile.profile)
    ensures status.StatusFailed? || (status == Status(true) && profile.ProfileFailed?) ==> u == None
    ensures status == Status(false) ==> u == before
  {
    match status
    case StatusFailed => None
    case Status(isLoggedIn) =>
      if !isLoggedIn then before
      else match profile
        case ProfileFailed => None
        case Profile(p) => Some(p)
  }

  /** From the initial state, the check signs the user in exactly when the
      status says logged in and the profile fetch succeeds. */
  lemma CheckFromInitial(status: StatusReply, profile: ProfileReply)
    ensures CheckedUser(None, status, profile).Some? <==> status == Status(true) && profile.Profile?
  {
  }

  class AuthState {
    var user: Option<GitHubProfile>
    var isLoading: bool

    /** `useState(null)`, `useState(true)`. */
    constructor ()
      ensures user == None && isLoading
    {
      user := None;
      isLoading := true;
    }

    /** `isAuthenticated: !!user`. */
    function IsAuthenticated(): (b: bool)
      reads this
      ensures b <==> user.Some?
    {
      user.Some?
    }

    /** checkAuth: try { status; profile } catch { clear } finally { done loading }. */
    method CheckAuth(status: StatusReply, profile: ProfileReply)
      modifies this
      ensures !isLoading
      ensures user == CheckedUser(old(user), status, profile)
    {
      match status {
        case StatusFailed =>
          user := None;
        case Status(isLoggedIn) =>
          if isLoggedIn {
            match profile {
              case ProfileFailed =>
                user := None;
              case Profile(p) =>
                user := Some(p);
            }
          }
      }
      isLoading := false;
    }

    /** login: only navigates the browser to the login URL; it returns the
      target and changes no local state. */
    method Login(apiUrl: string) returns (href: string)
      ensures href == apiUrl + LoginPath
    {
      href := apiUrl + LoginPath;
    }

    /** logout: the server call, then the user cleared in `finally`; the
        returned flag says whether the call (and so the promise) rejected. */
    method Logout(serverOk: bool) returns (rejected: bool)
      modifies this
      ensures user == None && isLoading == old(isLoading)
      ensures rejected <==> !serverOk
    {
      rejected := !serverOk;
      user := None;
    }
  }
}
