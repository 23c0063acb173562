/** What a handler hands back to the web framework: a status with a JSON body,
    and the side effects it asked for (cookies, outbound mail). */
module Http {

  /** The JSON body: `{ message }` or `{ error }`, the two keys the handlers use. */
  datatype Body = Message(text: string) | Error(text: string)

  datatype Response = Response(status: nat, body: Body)

  /** Effects outside the store. */
  datatype Effect =
    | SetCookie(name: string, value: string)
    | ClearCookie(name: string)
    | SendMail(to: string, link: string, recipient: string)

  /** The cookies a browser holds, by name (names are case-sensitive). */
  type CookieJar = map<string, string>

  /** The browser's cookie jar after it has processed one effect. */
  function ApplyCookie(jar: CookieJar, e: Effect): CookieJar {
    match e
    case SetCookie(n, v) => jar[n := v]
    case ClearCookie(n) => jar - {n}
    case SendMail(_, _, _) => jar
  }

  /** The browser's cookie jar after it has processed `effects` in order. */
  function ApplyCookies(jar: CookieJar, effects: seq<Effect>): CookieJar
    decreases |effects|
  {
    if |effects| == 0 then jar
    else ApplyCookies(ApplyCookie(jar, effects[0]), effects[1..])
  }

  /** Whether some effect in `effects` sets or clears the cookie `name`. */
  predicate Touches(effects: seq<Effect>, name: string) {
    exists k :: 0 <= k < |effects| && (effects[k].SetCookie? || effects[k].ClearCookie?) && effects[k].name == name
  }

  /** A cookie that no effect names keeps whatever value it had. */
  lemma {:induction false} UntouchedCookieKept(jar: CookieJar, effects: seq<Effect>, name: string)
    requires !Touches(effects, name)
    ensures name in ApplyCookies(jar, effects) <==> name in jar
    ensures name in jar ==> ApplyCookies(jar, effects)[name] == jar[name]
    decreases |effects|
  {
    if |effects| > 0 {
      var jar' := ApplyCookie(jar, effects[0]);
      assert !(effects[0].SetCookie? || effects[0].ClearCookie?) || effects[0].name != name;
      assert !Touches(effects[1..], name) by {
        forall k | 0 <= k < |effects[1..]|
          ensures effects[1..][k] == effects[k + 1]
        {
        }
      }
      UntouchedCookieKept(jar', effects[1..], name);
    }
  }
}
