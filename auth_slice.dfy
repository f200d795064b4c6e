/** The client authentication reducer: the logged-in user, a loading flag, an error
    and a success flag, with the user mirrored in browser storage under `userInfo`. */
module AuthSlice {
  import opened Optional

  /** The login response the client keeps for the signed-in user. */
  datatype UserInfo = UserInfo(id: string, name: string, username: string,
                               email: string, institute: string, token: string)

  class AuthState {
    var user: Option<UserInfo>
    var isLoading: bool
    var error: Option<string>
    var success: bool
    /** The browser storage entry `userInfo`. */
    var storedUserInfo: Option<UserInfo>

    /** A successful state never carries an error. */
    ghost predicate Valid()
      reads this
    {
      success ==> error == None
    }

    /** The initial state: the user read back from storage in the browser, none when
        rendering on the server. */
    constructor (inBrowser: bool, stored: Option<UserInfo>)
      ensures user == (if inBrowser then stored else None)
      ensures !isLoading && error == None && !success
      ensures storedUserInfo == stored
      ensures Valid()
    {
      user := if inBrowser then stored else None;
      isLoading := false;
      error := None;
      success := false;
      storedUserInfo := stored;
    }

    /** `authStart`. */
    method AuthStart()
      modifies this
      ensures isLoading && error == None && !success
      ensures user == old(user) && storedUserInfo == old(storedUserInfo)
      ensures Valid()
    {
      isLoading := true;
      error := None;
      success := false;
    }

    /** `authSuccess`: the payload becomes the user, in state and in storage. */
    method AuthSuccess(payload: UserInfo)
      modifies this
      ensures !isLoading && user == Some(payload) && success && error == None
      ensures storedUserInfo == Some(payload)
      ensures Valid()
    {
      isLoading := false;
      user := Some(payload);
      success := true;
      error := None;
      storedUserInfo := Some(payload);
    }

    /** `authFailure`: the payload becomes the error; the user is kept. */
    method AuthFailure(payload: Option<string>)
      modifies this
      ensures !isLoading && error == payload && !success
      ensures user == old(user) && storedUserInfo == old(storedUserInfo)
      ensures Valid()
    {
      isLoading := false;
      error := payload;
      success := false;
    }

    /** `logout`: forget the user in state and in storage; `isLoading` is not touched. */
    method Logout()
      modifies this
      ensures user == None && !success && error == None && storedUserInfo == None
      ensures isLoading == old(isLoading)
      ensures Valid()
    {
      user := None;
      success := false;
      error := None;
      storedUserInfo := None;
    }

    /** `resetAuthStatus`: clear the status flags, keep the user. */
    method ResetAuthStatus()
      modifies this
      ensures !isLoading && error == None && !success
      ensures user == old(user) && storedUserInfo == old(storedUserInfo)
      ensures Valid()
    {
      isLoading := false;
      error := None;
      success := false;
    }
  }
}
