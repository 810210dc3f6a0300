/** The request validators that run before the handlers: each one either
    passes the request on, answers 400 with a message, or throws when it
    calls trim on something that is not a string. */
module Validator {
  import opened Wrappers
  import opened Text
  import opened JsValue

  datatype Verdict =
    | Next                   // next(): the request goes on to the handler
    | BadRequest(error: string)
    | Throws(error: string)  // a TypeError, answered by the error handler

  /** One of the three runs of the email pattern: at least one character,
      none of them white space or '@'. */
  predicate EmailPart(s: string) {
    |s| > 0 && forall i :: 0 <= i < |s| ==> !IsJsSpace(s[i]) && s[i] != '@'
  }

  /** What the pattern ^[^\s@]+@[^\s@]+\.[^\s@]+$ accepts. */
  ghost predicate RegexEmail(s: string) {
    exists a, b, c :: EmailPart(a) && EmailPart(b) && EmailPart(c) && s == a + "@" + b + "." + c
  }

  /** The first index of c in s. */
  function IndexOf(s: string, c: char): (r: Option<nat>)
    ensures r.Some? ==> r.value < |s| && s[r.value] == c && c !in s[..r.value]
    ensures r.None? ==> c !in s
  {
    if |s| == 0 then None
    else if s[0] == c then Some(0)
    else match IndexOf(s[1..], c)
      case None => None
      case Some(k) =>
        assert s[..k + 1] == [s[0]] + s[1..][..k];
        Some(k + 1)
  }

  /** The pattern test, split at the first '@': a non-empty local part, and a
      domain with a '.' that is neither its first nor its last character. */
  predicate MatchesEmail(s: string) {
    match IndexOf(s, '@')
    case None => false
    case Some(at) =>
      var domain := s[at + 1..];
      EmailPart(s[..at]) && |domain| >= 3 && EmailPart(domain) && '.' in domain[1..|domain| - 1]
  }

  /** Every string the split test accepts matches the pattern. */
  lemma MatchesEmailIsRegex(s: string)
    requires MatchesEmail(s)
    ensures RegexEmail(s)
  {
    var at := IndexOf(s, '@').value;
    var domain := s[at + 1..];
    var j :| 1 <= j < |domain| - 1 && domain[j] == '.';
    var a, b, c := s[..at], domain[..j], domain[j + 1..];
    assert domain == b + "." + c;
    assert s == a + "@" + b + "." + c;
    assert EmailPart(b) && EmailPart(c);
  }

  /** Every string the pattern matches passes the split test: the '@' after
      the local part is the first one. */
  lemma RegexEmailMatches(s: string)
    requires RegexEmail(s)
    ensures MatchesEmail(s)
  {
    var a, b, c :| EmailPart(a) && EmailPart(b) && EmailPart(c) && s == a + "@" + b + "." + c;
    var domain := b + "." + c;
    assert s == a + "@" + domain;
    FirstAtAfterLocalPart(s, a, domain);
    assert s[|a| + 1..] == domain;
    assert domain[|b|] == '.';
    assert domain[1..|domain| - 1][|b| - 1] == '.';
  }

  /** In local + "@" + domain with no '@' in local, the first '@' is the one
      right after local. */
  lemma FirstAtAfterLocalPart(s: string, local: string, domain: string)
    requires EmailPart(local) && s == local + "@" + domain
    ensures IndexOf(s, '@') == Some(|local|)
    ensures s[..|local|] == local
  {
    assert s[|local|] == '@';
    assert s[..|local|] == local;
  }

  /** The split test accepts exactly the strings the pattern accepts. */
  lemma MatchesEmailIffRegex(s: string)
    ensures MatchesEmail(s) <==> RegexEmail(s)
  {
    if MatchesEmail(s) {
      MatchesEmailIsRegex(s);
    }
    if RegexEmail(s) {
      RegexEmailMatches(s);
    }
  }

  /** validateEmail: the pattern is tested against String(email). */
  function ValidateEmail(email: Value): (ok: bool)
    ensures ok <==> RegexEmail(ToStr(email))
  {
    MatchesEmailIffRegex(ToStr(email));
    MatchesEmail(ToStr(email))
  }

  /** validatePositiveInteger: parseInt(value) is a number above zero. A
      value it accepts is truthy, so a "required" test that comes first
      never hides a value this check would pass. */
  function ValidatePositiveInteger(value: Value): (ok: bool)
    ensures ok ==> Truthy(value)
    ensures value.Num? ==> (ok <==> value.n > 0)
  {
    match ParseIntValue(value)
    case None => false
    case Some(n) => n > 0
  }

  /** The check is parseInt of String(value) above zero, as JavaScript's
      parseInt converts its argument to a string first. */
  lemma PositiveIntegerReadsString(value: Value)
    ensures ValidatePositiveInteger(value) <==> ParseInt(ToStr(value)).Some? && ParseInt(ToStr(value)).value > 0
  {
    ParseIntValueIsParseIntOfString(value);
  }

  /** On a JSON integer, or on its decimal text, the check accepts exactly
      the positive values. */
  lemma PositiveIntegerOfNumber(n: int)
    ensures ValidatePositiveInteger(Num(n)) <==> n > 0
    ensures ValidatePositiveInteger(Str(IntToString(n))) <==> n > 0
  {
    ParseIntOfString(n);
    assert ParseIntValue(Str(IntToString(n))) == Some(n);
  }

  /** validateBookingRequest, its checks in order. */
  method ValidateBookingRequest(userEmail: Value, seatNumbers: Value) returns (v: Verdict)
    ensures !Truthy(userEmail) ==> v == BadRequest("user_email is required")
    ensures Truthy(userEmail) && !ValidateEmail(userEmail) ==> v == BadRequest("Invalid email format")
    ensures Truthy(userEmail) && ValidateEmail(userEmail) ==>
      if !Truthy(seatNumbers) then v == BadRequest("seat_numbers is required")
      else if !seatNumbers.Arr? then v == BadRequest("seat_numbers must be an array")
      else if |seatNumbers.items| == 0 then v == BadRequest("seat_numbers cannot be empty")
      else if |seatNumbers.items| > 10 then v == BadRequest("Cannot book more than 10 seats at once")
      else if forall i :: 0 <= i < |seatNumbers.items| ==> ValidatePositiveInteger(seatNumbers.items[i]) then v == Next
      else v == BadRequest("All seat numbers must be positive integers")
  {
    if !Truthy(userEmail) {
      return BadRequest("user_email is required");
    }
    if !ValidateEmail(userEmail) {
      return BadRequest("Invalid email format");
    }
    if !Truthy(seatNumbers) {
      return BadRequest("seat_numbers is required");
    }
    if !seatNumbers.Arr? {
      return BadRequest("seat_numbers must be an array");
    }
    var seats := seatNumbers.items;
    if |seats| == 0 {
      return BadRequest("seat_numbers cannot be empty");
    }
    if |seats| > 10 {
      return BadRequest("Cannot book more than 10 seats at once");
    }
    var allValid := AllPositiveIntegers(seats);
    if !allValid {
      return BadRequest("All seat numbers must be positive integers");
    }
    v := Next;
  }

  /** The for-of loop over seat_numbers: stops at the first element that
      fails validatePositiveInteger. */
  method AllPositiveIntegers(seats: seq<Value>) returns (ok: bool)
    ensures ok <==> forall i :: 0 <= i < |seats| ==> ValidatePositiveInteger(seats[i])
  {
    var i := 0;
    while i < |seats|
      invariant 0 <= i <= |seats|
      invariant forall k :: 0 <= k < i ==> ValidatePositiveInteger(seats[k])
    {
      if !ValidatePositiveInteger(seats[i]) {
        return false;
      }
      i := i + 1;
    }
    return true;
  }

  /** validateMovieRequest. A truthy title that is not a string has no trim
      method: the call throws before any answer is sent. */
  function ValidateMovieRequest(title: Value, durationMinutes: Value): (v: Verdict)
    ensures v.Throws? <==> Truthy(title) && !title.Str?
    ensures v.Throws? ==> v.error == "title.trim is not a function"
    ensures v == Next <==>
      && title.Str? && !IsBlank(title.s) && |title.s| <= 200
      && ValidatePositiveInteger(durationMinutes) && !GreaterThan(durationMinutes, 500)
    ensures v.BadRequest? ==> v.error in {
      "title is required and cannot be empty", "title cannot exceed 200 characters",
      "duration_minutes is required", "duration_minutes must be a positive integer",
      "duration_minutes seems unrealistic (max 500)" }
  {
    if !Truthy(title) then BadRequest("title is required and cannot be empty")
    else if !title.Str? then Throws("title.trim is not a function")
    else
      TrimEmptyIffBlank(title.s);
      if Trim(title.s) == "" then BadRequest("title is required and cannot be empty")
      else if |title.s| > 200 then BadRequest("title cannot exceed 200 characters")
      else if !Truthy(durationMinutes) then BadRequest("duration_minutes is required")
      else if !ValidatePositiveInteger(durationMinutes) then BadRequest("duration_minutes must be a positive integer")
      else if GreaterThan(durationMinutes, 500) then BadRequest("duration_minutes seems unrealistic (max 500)")
      else Next
  }

  /** validateShowRequest. Whether start_time lies in the future depends on
      the clock and on date parsing, so it is passed in. */
  function ValidateShowRequest(movieId: Value, screenName: Value, startTime: Value, totalSeats: Value,
                               startsInFuture: bool): (v: Verdict)
    ensures v.Throws? <==>
      ValidatePositiveInteger(movieId) && Truthy(screenName) && !screenName.Str?
    ensures v.Throws? ==> v.error == "screen_name.trim is not a function"
    ensures v == Next <==>
      && ValidatePositiveInteger(movieId)
      && screenName.Str? && !IsBlank(screenName.s)
      && Truthy(startTime) && startsInFuture
      && ValidatePositiveInteger(totalSeats) && !GreaterThan(totalSeats, 1000)
    ensures ValidatePositiveInteger(movieId) && screenName.Str? && !IsBlank(screenName.s) && !Truthy(startTime)
      ==> v == BadRequest("start_time is required")
  {
    if !Truthy(movieId) then BadRequest("movie_id is required")
    else if !ValidatePositiveInteger(movieId) then BadRequest("movie_id must be a positive integer")
    else if !Truthy(screenName) then BadRequest("screen_name is required and cannot be empty")
    else if !screenName.Str? then Throws("screen_name.trim is not a function")
    else
      TrimEmptyIffBlank(screenName.s);
      if Trim(screenName.s) == "" then BadRequest("screen_name is required and cannot be empty")
      else if !Truthy(startTime) then BadRequest("start_time is required")
      else if !startsInFuture then BadRequest("start_time must be in the future")
      else if !Truthy(totalSeats) then BadRequest("total_seats is required")
      else if !ValidatePositiveInteger(totalSeats) then BadRequest("total_seats must be a positive integer")
      else if GreaterThan(totalSeats, 1000) then BadRequest("total_seats cannot exceed 1000")
      else Next
  }

  /** validateIdParam: parseInt of the :id segment must be a number above zero. */
  function ValidateIdParam(id: string): (v: Verdict)
    ensures v == Next || v == BadRequest("Invalid ID parameter")
    ensures v == Next <==> ParseInt(id).Some? && ParseInt(id).value > 0
  {
    match ParseInt(id)
    case Some(n) => if n <= 0 then BadRequest("Invalid ID parameter") else Next
    case None => BadRequest("Invalid ID parameter")
  }

  /** The decimal text of an integer passes exactly when the integer is positive. */
  lemma IdParamOfInteger(n: int)
    ensures ValidateIdParam(IntToString(n)) == Next <==> n > 0
  {
    ParseIntOfString(n);
  }
}
