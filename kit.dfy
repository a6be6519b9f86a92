/**
 * The web framework's side of a request: the form and cookies it arrived
 * with, the cookies set while handling it, the per-request `locals`, and the
 * results an action or load function ends with.
 */
module Kit {
  import opened Js
  import opened Cookies
  import opened Sessions

  /**
   * How an action or load function ends: `fail(status, { message })` (or a bare
   * `fail(status)`), `redirect(status, location)`, or an exception that escapes
   * it and fails the request.
   */
  datatype ActionResult =
    | Fail(status: int, message: Option<string>)
    | Redirect(status: int, location: string)
    | Thrown(exception: Exception)

  /** `event.locals`: the identity the hook attaches to the request. */
  datatype Locals = Locals(user: Option<User>, session: Option<Session>)

  /** The response `resolve(event)` produced, for a request whose locals were `locals`. */
  datatype Response = Resolved(locals: Locals)

  class RequestEvent {
    const form: map<string, FormValue>
    const requestCookies: map<string, string>
    var setCookies: seq<CookieWrite>
    var locals: Locals
    var resolved: seq<Locals>

    constructor (form: map<string, FormValue>, requestCookies: map<string, string>)
      ensures this.form == form && this.requestCookies == requestCookies
      ensures setCookies == [] && locals == Locals(None, None) && resolved == []
    {
      this.form := form;
      this.requestCookies := requestCookies;
      setCookies := [];
      locals := Locals(None, None);
      resolved := [];
    }

    /** `formData.get(name)`. */
    function FormField(name: string): (v: FormValue)
      ensures name !in form ==> v.Null?
      ensures name in form ==> v == form[name]
    {
      if name in form then form[name] else Null
    }

    /** `cookies.get(name)`, read from the request's Cookie header. */
    function GetCookie(name: string): (v: Option<string>)
      ensures v.Some? <==> name in requestCookies
      ensures v.Some? ==> v.value == requestCookies[name]
    {
      if name in requestCookies then Some(requestCookies[name]) else None
    }

    /** `cookies.set(name, value, options)`. */
    method SetCookie(w: CookieWrite)
      modifies this`setCookies
      ensures setCookies == old(setCookies) + [w]
    {
      setCookies := setCookies + [w];
    }

    /** `resolve(event)`: hands the request, with its current locals, to the route. */
    method Resolve() returns (r: Response)
      modifies this`resolved
      ensures resolved == old(resolved) + [locals]
      ensures r == Resolved(locals)
    {
      resolved := resolved + [locals];
      r := Resolved(locals);
    }
  }
}
