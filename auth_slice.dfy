/** The client's authentication slice. The browser's stored `auth_token` entry is a field of
    the state, so that the reducers' writes and removals of it are part of each transition. */
module AuthSlice {
  import opened Util

  /** The user object a successful login returns; its contents are not inspected. */
  type User = string

  class AuthState {
    var token: Option<string>
    var isAuthenticated: bool
    var user: Option<User>
    var loading: bool
    var error: Option<string>
    /** The stored `auth_token` entry (`None` when absent). */
    var storedToken: Option<string>

    /** The stored token and the state's token agree, and an authenticated state holds a token. */
    predicate Valid()
      reads this
    {
      SnapshotValid(State())
    }

    /** The fields as a value. */
    function State(): Snapshot
      reads this
    {
      Snapshot(token, isAuthenticated, user, loading, error, storedToken)
    }

    /** `initialState`, read from the stored entry `stored`. */
    constructor (stored: Option<string>)
      ensures token == stored && isAuthenticated == Truthy(stored)
      ensures user == None && !loading && error == None && storedToken == stored
      ensures State() == Initial(stored)
    {
      token := stored;
      isAuthenticated := Truthy(stored);
      user := None;
      loading := false;
      error := None;
      storedToken := stored;
    }

    /** `loginStart`: loading, no error, nothing else changes. */
    method LoginStart()
      modifies this
      ensures loading && error == None
      ensures token == old(token) && isAuthenticated == old(isAuthenticated) && user == old(user)
      ensures storedToken == old(storedToken)
      ensures old(Valid()) ==> Valid()
      ensures State() == Step(old(State()), Start)
    {
      loading := true;
      error := None;
    }

    /** `loginSuccess`: authenticated with the payload's token and user; the token is stored. */
    method LoginSuccess(newToken: string, newUser: User)
      modifies this
      ensures !loading && isAuthenticated && token == Some(newToken) && user == Some(newUser)
      ensures storedToken == Some(newToken) && error == old(error)
      ensures Valid()
      ensures State() == Step(old(State()), Success(newToken, newUser))
    {
      loading := false;
      isAuthenticated := true;
      token := Some(newToken);
      user := Some(newUser);
      storedToken := Some(newToken);
    }

    /** `loginFailure`: the message becomes the error; token, user and the stored entry are cleared. */
    method LoginFailure(message: string)
      modifies this
      ensures !loading && error == Some(message) && !isAuthenticated
      ensures token == None && user == None && storedToken == None
      ensures Valid()
      ensures State() == Step(old(State()), Failure(message))
    {
      loading := false;
      error := Some(message);
      isAuthenticated := false;
      token := None;
      user := None;
      storedToken := None;
    }

    /** `logout`: as `loginFailure`, except that the error is cleared and `loading` is kept. */
    method Logout()
      modifies this
      ensures !isAuthenticated && token == None && user == None && error == None
      ensures storedToken == None && loading == old(loading)
      ensures Valid()
      ensures State() == Step(old(State()), SignOut)
    {
      isAuthenticated := false;
      token := None;
      user := None;
      error := None;
      storedToken := None;
    }

    /** `clearError`: only the error changes. */
    method ClearError()
      modifies this
      ensures error == None
      ensures token == old(token) && isAuthenticated == old(isAuthenticated) && user == old(user)
      ensures loading == old(loading) && storedToken == old(storedToken)
      ensures old(Valid()) ==> Valid()
      ensures State() == Step(old(State()), ClearErr)
    {
      error := None;
    }
  }

  /** The reducers as one step function, for reasoning about sequences of actions. */
  datatype Action = Start | Success(token: string, user: User) | Failure(message: string)
                  | SignOut | ClearErr

  datatype Snapshot = Snapshot(token: Option<string>, isAuthenticated: bool, user: Option<User>,
                               loading: bool, error: Option<string>, storedToken: Option<string>)

  predicate SnapshotValid(s: Snapshot) {
    s.storedToken == s.token && (s.isAuthenticated ==> s.token.Some?)
  }

  function Initial(stored: Option<string>): (s: Snapshot)
    ensures SnapshotValid(s) && s.isAuthenticated == Truthy(stored)
  {
    Snapshot(stored, Truthy(stored), None, false, None, stored)
  }

  function Step(s: Snapshot, a: Action): Snapshot {
    match a
    case Start => s.(loading := true, error := None)
    case Success(t, u) =>
      s.(loading := false, isAuthenticated := true, token := Some(t), user := Some(u), storedToken := Some(t))
    case Failure(m) =>
      s.(loading := false, error := Some(m), isAuthenticated := false, token := None, user := None, storedToken := None)
    case SignOut => s.(isAuthenticated := false, token := None, user := None, error := None, storedToken := None)
    case ClearErr => s.(error := None)
  }

  function Run(s: Snapshot, actions: seq<Action>): Snapshot
    decreases |actions|
  {
    if actions == [] then s else Run(Step(s, actions[0]), actions[1..])
  }

  /** One reducer keeps the stored token and the state's token in step. */
  lemma StepValid(s: Snapshot, a: Action)
    requires SnapshotValid(s)
    ensures SnapshotValid(Step(s, a))
  {
  }

  /** After any sequence of actions from the initial state, the stored token is the state's
      token, and the state is authenticated only with a token. */
  lemma {:induction false} RunValid(s: Snapshot, actions: seq<Action>)
    requires SnapshotValid(s)
    ensures SnapshotValid(Run(s, actions))
    decreases |actions|
  {
    if actions != [] {
      StepValid(s, actions[0]);
      RunValid(Step(s, actions[0]), actions[1..]);
    }
  }

  /** After a logout or a failed login the state is unauthenticated however it was reached, and
      the two differ only in `error` and `loading`. */
  lemma LogoutLikeFailure(s: Snapshot, m: string)
    ensures var f, o := Step(s, Failure(m)), Step(s, SignOut);
            && !f.isAuthenticated && !o.isAuthenticated
            && f.(error := None, loading := s.loading) == o
  {
  }
}
