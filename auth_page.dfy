/**
 * The sign-in / sign-up page: its four pieces of state (mode, form, error
 * text, whether the postcode search is open), the event handlers that change
 * them, and the ordered validation that decides what a submit sends.
 */
module AuthPage {
  import opened Wrappers

  /** The form is a record of text fields keyed by the inputs' `name` attributes. */
  type Form = map<string, string>

  const InitMember: Form := map[
    "mid" := "", "mpassword" := "", "confirmPassword" := "", "mname" := "",
    "mrole" := "USER", "address" := "", "addressDetail" := ""
  ]

  /** The fields the sign-up request carries: every field of the form except `confirmPassword`. */
  const PayloadFields: set<string> := {"mid", "mpassword", "mname", "mrole", "address", "addressDetail"}

  const PasswordMismatchMessage: string := "비밀번호가 일치하지 않습니다."
  const NameMissingMessage: string := "이름을 입력해주세요."
  const AddressMissingMessage: string := "주소와 상세주소를 모두 입력해주세요."
  const SignupFailedMessage: string := "회원가입에 실패했습니다."

  predicate HasAllFields(form: Form) {
    InitMember.Keys <= form.Keys
  }

  lemma InitMemberShape()
    ensures HasAllFields(InitMember)
    ensures InitMember["mrole"] == "USER"
    ensures forall k :: k in InitMember && k != "mrole" ==> InitMember[k] == ""
  {
  }

  /**
   * The sign-up checks in the order they run; the first that fails gives the
   * message shown, and `None` lets the submission go ahead.
   */
  function ValidationError(form: Form): (r: Option<string>)
    requires HasAllFields(form)
    ensures r == Some(PasswordMismatchMessage) <==> form["mpassword"] != form["confirmPassword"]
    ensures r == Some(NameMissingMessage) <==>
      form["mpassword"] == form["confirmPassword"] && form["mname"] == ""
    ensures r == Some(AddressMissingMessage) <==>
      form["mpassword"] == form["confirmPassword"] && form["mname"] != "" &&
      (form["address"] == "" || form["addressDetail"] == "")
    ensures r == None <==>
      form["mpassword"] == form["confirmPassword"] && form["mname"] != "" &&
      form["address"] != "" && form["addressDetail"] != ""
  {
    if form["mpassword"] != form["confirmPassword"] then Some(PasswordMismatchMessage)
    else if form["mname"] == "" then Some(NameMissingMessage)
    else if form["address"] == "" || form["addressDetail"] == "" then Some(AddressMissingMessage)
    else None
  }

  /** The body of the sign-up request, destructured from the form. */
  function SignupPayload(form: Form): (p: map<string, string>)
    requires HasAllFields(form)
    ensures p.Keys == PayloadFields && "confirmPassword" !in p
    ensures forall k :: k in p ==> p[k] == form[k]
  {
    map k | k in PayloadFields :: form[k]
  }

  /** How the sign-up request ended; `data` is `err.response?.data`, `None` when there was no response. */
  datatype SignupResponse = SignupOk | SignupFailed(data: Option<string>)

  /** The message a failed sign-up shows: the server's text when it is non-empty, a fixed one otherwise. */
  function SignupFailureText(data: Option<string>): (m: string)
    ensures data.Some? && data.value != "" ==> m == data.value
    ensures data.None? || data.value == "" ==> m == SignupFailedMessage
  {
    if data.Some? && data.value != "" then data.value else SignupFailedMessage
  }

  /** What a submit sends out, if anything. */
  datatype Request = NoRequest | LoginCall(mid: string, password: string) | SignupPost(payload: map<string, string>)

  class AuthPageState {
    var isLoginMode: bool
    var form: Form
    var error: string
    var isPostcodeOpen: bool

    ghost predicate Valid()
      reads this
    {
      HasAllFields(form)
    }

    constructor ()
      ensures Valid()
      ensures isLoginMode && form == InitMember && error == "" && !isPostcodeOpen
    {
      isLoginMode := true;
      form := InitMember;
      error := "";
      isPostcodeOpen := false;
    }

    /** The search button opens the postcode modal. */
    method OpenPostcode()
      modifies this
      ensures isPostcodeOpen
      ensures isLoginMode == old(isLoginMode) && form == old(form) && error == old(error)
    {
      isPostcodeOpen := true;
    }

    /** The close button of the postcode modal. */
    method ClosePostcode()
      modifies this
      ensures !isPostcodeOpen
      ensures isLoginMode == old(isLoginMode) && form == old(form) && error == old(error)
    {
      isPostcodeOpen := false;
    }

    /** `handlePostcodeComplete`: the chosen address fills `address` and the modal closes. */
    method HandlePostcodeComplete(address: string)
      requires Valid()
      modifies this
      ensures Valid()
      ensures form == old(form)["address" := address] && !isPostcodeOpen
      ensures isLoginMode == old(isLoginMode) && error == old(error)
    {
      form := form["address" := address];
      isPostcodeOpen := false;
    }

    /** `handleChange`: the input named `name` now holds `value`; no other field changes. */
    method HandleChange(name: string, value: string)
      requires Valid()
      modifies this
      ensures Valid()
      ensures form == old(form)[name := value]
      ensures forall k :: k in old(form) && k != name ==> form[k] == old(form)[k]
      ensures isLoginMode == old(isLoginMode) && error == old(error) && isPostcodeOpen == old(isPostcodeOpen)
    {
      form := form[name := value];
    }

    /** `toggleMode`: switch between sign-in and sign-up with a blank form and no error. */
    method ToggleMode()
      modifies this
      ensures Valid()
      ensures isLoginMode == !old(isLoginMode) && form == InitMember && error == ""
      ensures isPostcodeOpen == old(isPostcodeOpen)
    {
      isLoginMode := !isLoginMode;
      form := InitMember;
      error := "";
    }

    /**
     * `handleSubmit`. The error is cleared first; in sign-in mode the login call
     * goes out with no checks; in sign-up mode the checks run in order, and only
     * when all pass is the request posted, after which `response` decides
     * between returning to sign-in mode and showing the failure.
     */
    method HandleSubmit(response: SignupResponse) returns (request: Request)
      requires Valid()
      modifies this
      ensures Valid()
      ensures isPostcodeOpen == old(isPostcodeOpen)
      ensures old(isLoginMode) ==>
        && request == LoginCall(old(form)["mid"], old(form)["mpassword"])
        && isLoginMode && form == old(form) && error == ""
      ensures !old(isLoginMode) && ValidationError(old(form)).Some? ==>
        && request == NoRequest
        && !isLoginMode && form == old(form) && error == ValidationError(old(form)).value
      ensures !old(isLoginMode) && ValidationError(old(form)).None? ==>
        && request == SignupPost(SignupPayload(old(form)))
        && (response.SignupOk? ==> isLoginMode && form == InitMember && error == "")
        && (response.SignupFailed? ==>
              !isLoginMode && form == old(form) && error == SignupFailureText(response.data))
    {
      error := "";
      if !isLoginMode {
        if form["mpassword"] != form["confirmPassword"] {
          error := PasswordMismatchMessage;
          return NoRequest;
        }
        if form["mname"] == "" {
          error := NameMissingMessage;
          return NoRequest;
        }
        if form["address"] == "" || form["addressDetail"] == "" {
          error := AddressMissingMessage;
          return NoRequest;
        }
      }
      if isLoginMode {
        request := LoginCall(form["mid"], form["mpassword"]);
      } else {
        request := SignupPost(SignupPayload(form));
        match response
        case SignupOk =>
          ToggleMode();
        case SignupFailed(data) =>
          error := SignupFailureText(data);
      }
    }
  }

  /** A successful sign-up leaves the page in sign-in mode with a blank form whose role is "USER". */
  method SignupRoundTrip(page: AuthPageState)
    requires page.Valid() && !page.isLoginMode && ValidationError(page.form).None?
    modifies page
    ensures page.isLoginMode && page.form == InitMember && page.form["mrole"] == "USER" && page.error == ""
  {
    var request := page.HandleSubmit(SignupOk);
    assert request.SignupPost? && "confirmPassword" !in request.payload;
  }
}
