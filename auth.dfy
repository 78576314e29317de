/** The client's authentication manager: the current user and token, the
    listeners that are told about every change, and the two browser-storage
    entries that keep the session across page loads. A listener is known by
    its identity alone; calling one is recorded in `delivered`, since what a
    listener then does lies outside this object. Browser storage is the map
    `stored`; `JSON.stringify` and `JSON.parse` are function parameters. */
module Auth {
  import opened Wrappers
  import opened Schema
  import Seqs
  import Routes

  const TokenKey: string := "auth_token"
  const UserKey: string := "auth_user"
  const TeacherRole: string := "teacher"
  const StudentRole: string := "student"

  datatype AuthState = AuthState(user: Option<User>, token: Option<string>)

  const SignedOut: AuthState := AuthState(None, None)

  /** The identity of a listener function. */
  type ListenerId = nat

  /** One call `listener(state)`. */
  datatype Delivery = Delivery(listener: ListenerId, state: AuthState)

  /** What `notify` delivers: every listener, in order, the same state. */
  function Deliveries(listeners: seq<ListenerId>, state: AuthState): (r: seq<Delivery>)
    ensures |r| == |listeners|
    ensures forall i :: 0 <= i < |r| ==> r[i] == Delivery(listeners[i], state)
  {
    seq(|listeners|, i requires 0 <= i < |listeners| => Delivery(listeners[i], state))
  }

  /** JavaScript truthiness of a string that may be null. */
  predicate Truthy(s: Option<string>) {
    s.Some? && s.value != ""
  }

  /** `splice(indexOf(x), 1)` when `x` is present: the first `x` removed. */
  function RemoveFirst(s: seq<ListenerId>, x: ListenerId): (r: seq<ListenerId>)
    ensures x !in s ==> r == s
    ensures x in s ==> |r| == |s| - 1
    ensures multiset(r) == multiset(s) - multiset{x}
  {
    if s == [] then []
    else
      assert s == [s[0]] + s[1..];
      if s[0] == x then s[1..] else [s[0]] + RemoveFirst(s[1..], x)
  }

  /** The removal takes out the first occurrence and keeps the rest in order. */
  lemma {:induction false} RemoveFirstSplit(a: seq<ListenerId>, x: ListenerId, b: seq<ListenerId>)
    requires x !in a
    ensures RemoveFirst(a + [x] + b, x) == a + b
  {
    var s := a + [x] + b;
    if a == [] {
      assert s[0] == x;
      assert s[1..] == b;
    } else {
      calc {
        RemoveFirst(s, x);
        == { assert s[0] == a[0] && s[0] != x; }
        [a[0]] + RemoveFirst(s[1..], x);
        == { assert s[1..] == a[1..] + [x] + b; }
        [a[0]] + RemoveFirst(a[1..] + [x] + b, x);
        == { RemoveFirstSplit(a[1..], x, b); }
        [a[0]] + (a[1..] + b);
        == { assert a == [a[0]] + a[1..]; }
        a + b;
      }
    }
  }

  /** Removing at the index `indexOf` finds is the same as removing the first occurrence. */
  lemma RemoveFirstAt(s: seq<ListenerId>, x: ListenerId, i: nat)
    requires i < |s| && s[i] == x && x !in s[..i]
    ensures RemoveFirst(s, x) == s[..i] + s[i + 1..]
  {
    assert s == s[..i] + [x] + s[i + 1..];
    RemoveFirstSplit(s[..i], x, s[i + 1..]);
  }

  /** Subscribing a new listener and then unsubscribing it restores the list. */
  lemma SubscribeUnsubscribe(s: seq<ListenerId>, x: ListenerId)
    requires x !in s
    ensures RemoveFirst(s + [x], x) == s
  {
    RemoveFirstSplit(s, x, []);
    assert s + [x] + [] == s + [x] && s + [] == s;
  }

  class AuthManager {
    var state: AuthState
    var listeners: seq<ListenerId>
    var stored: map<string, string>
    var delivered: seq<Delivery>

    /** Restores the session from storage when both entries are non-empty and
        the user entry parses; an entry that fails to parse clears both keys. */
    constructor (storage: map<string, string>, parse: string -> Result<Option<User>, string>)
      ensures listeners == [] && delivered == []
      ensures (TokenKey in storage && storage[TokenKey] != "" &&
               UserKey in storage && storage[UserKey] != "") ==>
                (if parse(storage[UserKey]).Success?
                 then state == AuthState(parse(storage[UserKey]).value, Some(storage[TokenKey])) &&
                      stored == storage
                 else state == SignedOut && stored == storage - {TokenKey, UserKey})
      ensures !(TokenKey in storage && storage[TokenKey] != "" &&
                UserKey in storage && storage[UserKey] != "") ==>
                state == SignedOut && stored == storage
    {
      state := SignedOut;
      listeners := [];
      stored := storage;
      delivered := [];
      var token := if TokenKey in storage then Some(storage[TokenKey]) else None;
      var user := if UserKey in storage then Some(storage[UserKey]) else None;
      if Truthy(token) && Truthy(user) {
        var parsed := parse(user.value);
        if parsed.Success? {
          state := AuthState(parsed.value, token);
        } else {
          stored := stored - {TokenKey};
          stored := stored - {UserKey};
        }
      }
    }

    /** `subscribe`: the listener goes to the end of the list. */
    method Subscribe(listener: ListenerId)
      modifies this
      ensures listeners == old(listeners) + [listener]
      ensures state == old(state) && stored == old(stored) && delivered == old(delivered)
    {
      listeners := listeners + [listener];
    }

    /** The function `subscribe` returns: removes the first occurrence of the
        listener, if there is one, and keeps the others in order. */
    method Unsubscribe(listener: ListenerId)
      modifies this
      ensures listeners == RemoveFirst(old(listeners), listener)
      ensures state == old(state) && stored == old(stored) && delivered == old(delivered)
    {
      var index := Seqs.IndexOf(listeners, listener);
      if index > -1 {
        RemoveFirstAt(listeners, listener, index);
        listeners := listeners[..index] + listeners[index + 1..];
      }
    }

    /** `notify`: calls every listener once, in order, with the current state. */
    method Notify()
      modifies this
      ensures delivered == old(delivered) + Deliveries(listeners, state)
      ensures state == old(state) && listeners == old(listeners) && stored == old(stored)
    {
      var i := 0;
      while i < |listeners|
        invariant 0 <= i <= |listeners|
        invariant delivered == old(delivered) + Deliveries(listeners[..i], state)
        invariant state == old(state) && listeners == old(listeners) && stored == old(stored)
      {
        delivered := delivered + [Delivery(listeners[i], state)];
        assert Deliveries(listeners[..i + 1], state) ==
               Deliveries(listeners[..i], state) + [Delivery(listeners[i], state)];
        i := i + 1;
      }
      assert listeners[..i] == listeners;
    }

    /** `login`: the new user and token are kept, written to storage, and sent
        to every listener. */
    method Login(user: User, token: string, stringify: User -> string)
      modifies this
      ensures state == AuthState(Some(user), Some(token))
      ensures stored == old(stored)[TokenKey := token][UserKey := stringify(user)]
      ensures listeners == old(listeners)
      ensures delivered == old(delivered) + Deliveries(listeners, state)
      ensures token != "" ==> IsAuthenticated()
    {
      state := AuthState(Some(user), Some(token));
      stored := stored[TokenKey := token];
      stored := stored[UserKey := stringify(user)];
      Notify();
    }

    /** `logout`: user and token are cleared, both storage keys removed, and
        every listener told. */
    method Logout()
      modifies this
      ensures state == SignedOut
      ensures stored == old(stored) - {TokenKey, UserKey}
      ensures listeners == old(listeners)
      ensures delivered == old(delivered) + Deliveries(listeners, SignedOut)
      ensures !IsAuthenticated() && GetAuthHeaders() == map[]
      ensures !IsTeacher() && !IsStudent()
    {
      state := SignedOut;
      stored := stored - {TokenKey};
      stored := stored - {UserKey};
      Notify();
    }

    /** `getAuthHeaders`: nothing without a token, else one bearer header. */
    function GetAuthHeaders(): (h: map<string, string>)
      reads this
      ensures h == map[] <==> !Truthy(state.token)
      ensures h != map[] ==> h.Keys == {"Authorization"} && h["Authorization"] == "Bearer " + state.token.value
    {
      if !Truthy(state.token) then map[]
      else
        var h := map["Authorization" := "Bearer " + state.token.value];
        assert "Authorization" in h;
        h
    }

    /** `isAuthenticated`: a non-empty token and a user; an empty token counts as none. */
    function IsAuthenticated(): (r: bool)
      reads this
      ensures r <==> state.token.Some? && state.token.value != [] && state.user.Some?
      ensures r ==> GetAuthHeaders() != map[]
    {
      Truthy(state.token) && state.user.Some?
    }

    function IsTeacher(): (r: bool)
      reads this
      ensures r ==> state.user.Some?
    {
      state.user.Some? && state.user.value.role == Some(TeacherRole)
    }

    function IsStudent(): (r: bool)
      reads this
      ensures r ==> state.user.Some?
      ensures r ==> !IsTeacher()
    {
      state.user.Some? && state.user.value.role == Some(StudentRole)
    }

    /** The header the client sends is read back by the server as the same token,
        for any token without spaces. */
    lemma HeaderCarriesToken()
      requires Truthy(state.token) && ' ' !in state.token.value
      ensures Routes.ExtractToken(Some(GetAuthHeaders()["Authorization"])) == Some(state.token.value)
    {
      Routes.BearerToken(state.token.value);
    }
  }
}
