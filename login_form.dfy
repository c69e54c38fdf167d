/**
  The sign-in form of the client (client/src/components/SignModal/components/LoginForm.tsx):
  whether the typed identifier is an email address, the request payload sent
  to the sign-in endpoint, and what the form does with the answer.

  The component's `requestSending` state, the actions dispatched to the store
  and the error messages shown are fields of a class; the request itself and
  the page reload are outside the model.
*/
module SignIn {
  import opened Common
  import opened Js

  /** No character of `text` is whitespace. */
  predicate NonSpace(text: string) {
    forall k :: 0 <= k < |text| ==> !IsSpace(text[k])
  }

  /**
    `/\S+@\S+\.\S+/` matches `s[p..u]`: a non-empty run of non-whitespace
    `s[p..q]`, the `@` at `q`, a non-empty run `s[q + 1..r]`, the `.` at `r`
    and a non-empty run `s[r + 1..u]`.
  */
  ghost predicate EmailAt(s: string, p: int, q: int, r: int, u: int) {
    && 0 <= p < q && q + 1 < r && r + 1 < u <= |s|
    && s[q] == '@' && s[r] == '.'
    && NonSpace(s[p..q]) && NonSpace(s[q + 1..r]) && NonSpace(s[r + 1..u])
  }

  /** The regular expression is not anchored: it matches somewhere in `s`. */
  ghost predicate MatchesEmailPattern(s: string) {
    exists p, q, r, u :: EmailAt(s, p, q, r, u)
  }

  /**
    `isEmail`, decided by the positions of one `@` and one `.` after it: the
    `@` has a non-whitespace character before it, and everything from just
    after the `@` to just after the `.` is non-whitespace.
  */
  predicate IsEmail(s: string) {
    exists q | 1 <= q < |s| ::
      exists r | q + 2 <= r < |s| - 1 ::
        s[q] == '@' && s[r] == '.' && !IsSpace(s[q - 1]) && NonSpace(s[q + 1..r + 2])
  }

  /** A position pair accepted by `isEmail` gives a match of the regular expression. */
  lemma IsEmailToPattern(s: string, q: int, r: int)
    requires 1 <= q < |s| && q + 2 <= r < |s| - 1
    requires s[q] == '@' && s[r] == '.' && !IsSpace(s[q - 1]) && NonSpace(s[q + 1..r + 2])
    ensures EmailAt(s, q - 1, q, r, r + 2)
  {
    var middle, after := s[q + 1..r], s[q + 1..r + 2];
    forall k | 0 <= k < |middle| ensures !IsSpace(middle[k]) {
      assert middle[k] == after[k];
    }
    assert s[r + 1..r + 2][0] == after[r - q];
    assert s[q - 1..q][0] == s[q - 1];
  }

  /** A match of the regular expression gives a position pair accepted by `isEmail`. */
  lemma PatternToIsEmail(s: string, p: int, q: int, r: int, u: int)
    requires EmailAt(s, p, q, r, u)
    ensures 1 <= q < |s| && q + 2 <= r < |s| - 1
    ensures s[q] == '@' && s[r] == '.' && !IsSpace(s[q - 1]) && NonSpace(s[q + 1..r + 2])
  {
    assert s[p..q][q - 1 - p] == s[q - 1];
    var middle, last, after := s[q + 1..r], s[r + 1..u], s[q + 1..r + 2];
    forall k | 0 <= k < |after| ensures !IsSpace(after[k]) {
      if k < |middle| {
        assert middle[k] == after[k];
      } else if k == r - q {
        assert last[0] == after[k];
      }
    }
  }

  /** `isEmail` holds exactly when the regular expression matches. */
  lemma IsEmailMatchesPattern(s: string)
    ensures IsEmail(s) <==> MatchesEmailPattern(s)
  {
    if IsEmail(s) {
      var q :| 1 <= q < |s| && exists r | q + 2 <= r < |s| - 1 ::
        s[q] == '@' && s[r] == '.' && !IsSpace(s[q - 1]) && NonSpace(s[q + 1..r + 2]);
      var r :| q + 2 <= r < |s| - 1
        && s[q] == '@' && s[r] == '.' && !IsSpace(s[q - 1]) && NonSpace(s[q + 1..r + 2]);
      IsEmailToPattern(s, q, r);
    }
    if MatchesEmailPattern(s) {
      var p, q, r, u :| EmailAt(s, p, q, r, u);
      PatternToIsEmail(s, p, q, r, u);
    }
  }

  /** What the form collects. */
  datatype FormData = FormData(usernameOrEmail: string, password: string, remember: Value)

  /**
    The body of the sign-in request: the identifier under `email` when it is
    an email address and under `username` otherwise, `rememberMe` as a
    boolean, and the password as typed.
  */
  function Payload(values: FormData): (body: Object)
    ensures ("email" in body) == IsEmail(values.usernameOrEmail)
    ensures ("username" in body) == !IsEmail(values.usernameOrEmail)
    ensures body.Keys == {"rememberMe", "password"} + (if IsEmail(values.usernameOrEmail) then {"email"} else {"username"})
    ensures forall k :: k in body && k != "rememberMe" && k != "password" ==> body[k] == Str(values.usernameOrEmail)
    ensures body["rememberMe"] == Bool(Truthy(values.remember))
    ensures body["password"] == Str(values.password)
  {
    var who := if IsEmail(values.usernameOrEmail) then map["email" := Str(values.usernameOrEmail)]
               else map["username" := Str(values.usernameOrEmail)];
    who + map["rememberMe" := Bool(if Truthy(values.remember) then true else false),
              "password" := Str(values.password)]
  }

  /** An action dispatched to the store. */
  datatype Action =
    | SetAccessToken(token: Option<Value>)   // `SET_ACCESS_TOKEN`; `None` is `undefined`
    | SignInUser(user: Object)               // `SIGN_IN`

  /** The sign-in form component. */
  class LoginForm {
    var requestSending: bool
    var dispatched: seq<Action>
    var errorsShown: seq<string>

    constructor ()
      ensures !requestSending && dispatched == [] && errorsShown == []
    {
      requestSending := false;
      dispatched := [];
      errorsShown := [];
    }

    /** `onSubmit` up to the request: the flag is raised and the payload built. */
    method Submit(values: FormData) returns (body: Object)
      modifies this`requestSending
      ensures requestSending
      ensures body == Payload(values)
    {
      requestSending := true;
      body := Payload(values);
    }

    /**
      The success callback on `res.data`: the access token is dispatched, then
      deleted, then what is left is dispatched as the user. When
      `attributes` is missing or `null` the property read throws, and the
      failure callback runs instead: nothing is dispatched and the flag is
      lowered; the message it then reads is missing, so nothing is shown.
    */
    method OnSuccess(data: Object)
      modifies this`dispatched, this`requestSending
      ensures "attributes" !in data || data["attributes"] == Null ==>
                dispatched == old(dispatched) && !requestSending
      ensures "attributes" in data && data["attributes"].Obj? ==>
                var attributes := data["attributes"].fields;
                var token := if "access_token" in attributes then Some(attributes["access_token"]) else None;
                && requestSending == old(requestSending)
                && dispatched == old(dispatched) + [SetAccessToken(token),
                                                    SignInUser(data["attributes" := Obj(attributes - {"access_token"})])]
      ensures "attributes" in data && data["attributes"] != Null && !data["attributes"].Obj? ==>
                && requestSending == old(requestSending)
                && dispatched == old(dispatched) + [SetAccessToken(None), SignInUser(data)]
    {
      if "attributes" !in data || data["attributes"] == Null {
        requestSending := false;
        return;
      }
      var attributes := data["attributes"];
      if !attributes.Obj? {
        dispatched := dispatched + [SetAccessToken(None)];
        dispatched := dispatched + [SignInUser(data)];
        return;
      }
      var token := if "access_token" in attributes.fields then Some(attributes.fields["access_token"]) else None;
      dispatched := dispatched + [SetAccessToken(token)];
      var user := data["attributes" := Obj(attributes.fields - {"access_token"})];
      dispatched := dispatched + [SignInUser(user)];
    }

    /** The failure callback: the flag is lowered and the server's message shown. */
    method OnFailure(message: string)
      modifies this`requestSending, this`errorsShown
      ensures !requestSending
      ensures errorsShown == old(errorsShown) + [message]
    {
      requestSending := false;
      errorsShown := errorsShown + [message];
    }
  }
}
