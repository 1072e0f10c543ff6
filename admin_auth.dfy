/** The administrator key check: a request is authorised when its `x-admin-key` header
    equals the configured `ADMIN_PASSWORD` and neither is empty.

    Headers are a map from lower-cased header name to value, as the Fetch `Headers` object
    presents them; the process environment is a map from variable name to value. */
module AdminAuth {

  const KeyHeader := "x-admin-key"
  const PasswordVariable := "ADMIN_PASSWORD"

  /** A header or variable read the way `get(name) || ""` reads it: missing is empty. */
  function Lookup(m: map<string, string>, name: string): (v: string)
    ensures name !in m ==> v == ""
    ensures name in m ==> v == m[name]
  {
    if name in m then m[name] else ""
  }

  /** `isAuthorized`. */
  function IsAuthorized(headers: map<string, string>, env: map<string, string>): (ok: bool)
    ensures ok <==> KeyHeader in headers && PasswordVariable in env
                    && headers[KeyHeader] != "" && headers[KeyHeader] == env[PasswordVariable]
    ensures Lookup(headers, KeyHeader) == "" ==> !ok
    ensures Lookup(env, PasswordVariable) == "" ==> !ok
  {
    var provided := Lookup(headers, KeyHeader);
    var expected := Lookup(env, PasswordVariable);
    provided != "" && expected != "" && provided == expected
  }

  /** Only the key header and the password variable matter: any other header or variable
      can be added, removed or changed without changing the verdict. */
  lemma OnlyKeyAndPasswordMatter(h1: map<string, string>, h2: map<string, string>, e1: map<string, string>, e2: map<string, string>)
    requires Lookup(h1, KeyHeader) == Lookup(h2, KeyHeader)
    requires Lookup(e1, PasswordVariable) == Lookup(e2, PasswordVariable)
    ensures IsAuthorized(h1, e1) == IsAuthorized(h2, e2)
  {
  }
}
