/** The `auth` slice of the client store: the signed-in user's name and the
    bearer token the HTTP layer reads. Its only reducer, `login`, replaces
    the name; no reducer ever writes the token. */
module AuthSlice {

  /** The slice's state, as a value. */
  datatype AuthState = AuthState(name: string, accessToken: string)

  /** The slice's initial state: no name, no token. */
  const INITIAL_STATE := AuthState("", "")

  /** The `login` reducer on values: the payload becomes the name and
      nothing else changes. */
  function LoginReducer(s: AuthState, payload: string): (r: AuthState)
    ensures r.name == payload
    ensures r.accessToken == s.accessToken
  {
    s.(name := payload)
  }

  /** The state after dispatching one `login` action per payload, in order. */
  function LoginAll(s: AuthState, payloads: seq<string>): AuthState
    decreases payloads
  {
    if payloads == [] then s else LoginAll(LoginReducer(s, payloads[0]), payloads[1..])
  }

  /** No sequence of `login` actions changes the token. */
  lemma {:induction false} LoginAllKeepsToken(s: AuthState, payloads: seq<string>)
    ensures LoginAll(s, payloads).accessToken == s.accessToken
    decreases payloads
  {
    if payloads != [] {
      LoginAllKeepsToken(LoginReducer(s, payloads[0]), payloads[1..]);
    }
  }

  /** Across a non-empty sequence of `login` actions the last payload is the
      name, and the token is the one before the sequence. */
  lemma {:induction false} LoginAllLastWins(s: AuthState, payloads: seq<string>)
    requires payloads != []
    ensures LoginAll(s, payloads) == AuthState(payloads[|payloads| - 1], s.accessToken)
    decreases payloads
  {
    if |payloads| > 1 {
      LoginAllLastWins(LoginReducer(s, payloads[0]), payloads[1..]);
    }
  }

  /** Dispatching `login` twice with the same payload is the same as once. */
  lemma LoginIdempotent(s: AuthState, payload: string)
    ensures LoginReducer(LoginReducer(s, payload), payload) == LoginReducer(s, payload)
  {
  }

  /** Every state reachable from the initial state by `login` actions has an
      empty token. */
  lemma {:induction false} ReachableTokenIsEmpty(payloads: seq<string>)
    ensures LoginAll(INITIAL_STATE, payloads).accessToken == ""
  {
    LoginAllKeepsToken(INITIAL_STATE, payloads);
  }

  /** The slice as the store holds it: a record whose `login` reducer assigns
      one field in place. */
  class AuthStore {
    var name: string
    var accessToken: string

    /** The current state as a value. */
    function State(): AuthState
      reads this
    {
      AuthState(name, accessToken)
    }

    /** The store starts in the slice's initial state. */
    constructor ()
      ensures State() == INITIAL_STATE
      ensures name == "" && accessToken == ""
    {
      name := "";
      accessToken := "";
    }

    /** Dispatch `login(payload)`: the name becomes the payload, the token
        is left as it was. */
    method Login(payload: string)
      modifies this
      ensures State() == LoginReducer(old(State()), payload)
      ensures name == payload && accessToken == old(accessToken)
    {
      name := payload;
    }
  }
}
