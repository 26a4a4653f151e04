/** The caller identity (`__user__`) that the hosting chat platform passes to
    every tool call: an optional `name`, `email` and `id`. */
module Caller {

  /** The identity mapping; absent keys are absent. */
  type User = map<string, string>

  /** `__user__.get(key, default)`. */
  function GetOr(u: User, key: string, default: string): (r: string)
    ensures key in u ==> r == u[key]
    ensures key !in u ==> r == default
  {
    if key in u then u[key] else default
  }

  /** The name stamped on quotes as sales rep or updater. */
  function NameOrUnknown(u: User): string {
    GetOr(u, "name", "Inconnu")
  }

  /** The email stamped on quotes as sales rep email. */
  function EmailOrNone(u: User): string {
    GetOr(u, "email", "N/A")
  }

  /** True iff p is a prefix of s. */
  predicate StartsWith(s: string, p: string) {
    |p| <= |s| && s[..|p|] == p
  }

  /** True iff p is a suffix of s. */
  predicate EndsWith(s: string, p: string) {
    |p| <= |s| && s[|s| - |p|..] == p
  }

  /** The one-line description of the caller: the name, then the id, then the
      email, each only when present, or "Utilisateur: Inconnu" when none is. */
  function Describe(u: User): (r: string)
    ensures |r| > 0
    ensures "name" !in u && "id" !in u && "email" !in u ==> r == "Utilisateur: Inconnu"
    ensures "name" in u ==> StartsWith(r, "Utilisateur: " + u["name"])
    ensures "name" !in u && "id" in u ==> StartsWith(r, " (ID: " + u["id"] + ")")
    ensures "name" !in u && "id" !in u && "email" in u ==> r == " (Email: " + u["email"] + ")"
    ensures "email" in u ==> EndsWith(r, " (Email: " + u["email"] + ")")
    ensures "email" !in u && "id" in u ==> EndsWith(r, " (ID: " + u["id"] + ")")
    ensures "name" in u && "id" in u ==> StartsWith(r, "Utilisateur: " + u["name"] + (" (ID: " + u["id"] + ")"))
    ensures "id" in u && "email" in u ==> EndsWith(r, (" (ID: " + u["id"] + ")") + (" (Email: " + u["email"] + ")"))
    ensures "name" in u || "id" in u || "email" in u ==>
              |r| == (if "name" in u then |"Utilisateur: " + u["name"]| else 0)
                   + (if "id" in u then |" (ID: " + u["id"] + ")"| else 0)
                   + (if "email" in u then |" (Email: " + u["email"] + ")"| else 0)
  {
    var name := if "name" in u then "Utilisateur: " + u["name"] else "";
    var id := if "id" in u then " (ID: " + u["id"] + ")" else "";
    var email := if "email" in u then " (Email: " + u["email"] + ")" else "";
    Joined(name, id, email);
    if "name" !in u && "id" !in u && "email" !in u then "Utilisateur: Inconnu" else name + id + email
  }

  /** How the three parts sit in their concatenation, including when some are empty. */
  lemma Joined(a: string, b: string, c: string)
    ensures StartsWith(a + b + c, a) && StartsWith(a + b + c, a + b)
    ensures EndsWith(a + b + c, c) && EndsWith(a + b + c, b + c)
    ensures a == "" ==> StartsWith(a + b + c, b)
    ensures c == "" ==> EndsWith(a + b + c, b)
    ensures a == "" && b == "" ==> a + b + c == c
    ensures |a + b + c| == |a| + |b| + |c|
  {
    ConcatEnds(a + b, c);
    ConcatEnds(a, b);
    ConcatEnds(a, b + c);
    assert a + b + c == a + (b + c);
    PrefixTransitive(a + b + c, a + b, a);
    if a == "" {
      assert a + b == b;
    }
    if c == "" {
      assert a + b + c == a + b;
    }
    if a == "" && b == "" {
      assert a + b == "";
    }
  }

  /** A concatenation starts with its first part and ends with its second. */
  lemma ConcatEnds(a: string, b: string)
    ensures StartsWith(a + b, a) && EndsWith(a + b, b)
  {
    assert (a + b)[..|a|] == a;
    assert (a + b)[|a + b| - |b|..] == b;
  }

  /** A prefix of a prefix is a prefix. */
  lemma PrefixTransitive(s: string, p: string, q: string)
    requires StartsWith(s, p) && StartsWith(p, q)
    ensures StartsWith(s, q)
  {
    assert s[..|q|] == s[..|p|][..|q|];
  }
}
