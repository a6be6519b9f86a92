/** Cookies as the handlers build them and as the framework records them. */
module Cookies {

  /** A value of a cookie-options object: a string, a boolean or a number. */
  datatype AttrValue = Str(s: string) | Flag(b: bool) | Num(n: int)

  /** A cookie-options object, keyed by property name. */
  type Attributes = map<string, AttrValue>

  /** A cookie as the session library describes it: name, value and attributes. */
  datatype Cookie = Cookie(name: string, value: string, attributes: Attributes)

  /** One `cookies.set(name, value, options)` call: a Set-Cookie directive of the response. */
  datatype CookieWrite = CookieWrite(name: string, value: string, options: Attributes)

  /**
   * `{ path: '.', ...attributes }`: the spread copies every given attribute over
   * the literal, so a `path` among them wins over the default `'.'`.
   */
  function WithDefaultPath(attributes: Attributes): (options: Attributes)
    ensures options.Keys == attributes.Keys + {"path"}
    ensures "path" !in attributes ==> options["path"] == Str(".")
    ensures forall k :: k in attributes ==> options[k] == attributes[k]
  {
    map["path" := Str(".")] + attributes
  }

  /** `event.cookies.set(name, value, { path: '.', ...attributes })` for a library cookie. */
  function Write(c: Cookie): (w: CookieWrite)
    ensures w.name == c.name && w.value == c.value
    ensures w.options.Keys == c.attributes.Keys + {"path"}
    ensures forall k :: k in c.attributes ==> w.options[k] == c.attributes[k]
    ensures "path" !in c.attributes ==> w.options["path"] == Str(".")
  {
    CookieWrite(c.name, c.value, WithDefaultPath(c.attributes))
  }
}
