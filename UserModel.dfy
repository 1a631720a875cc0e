/** The `User` model: the record a user document holds and the constraints
    `userSchema` puts on its fields. Timestamps are not modelled. */
module UserModel {
  import opened Wrappers
  import opened Records

  /** The `role` path's enum, `['user', 'admin']`. */
  datatype Role = UserRole | AdminRole

  function RoleName(r: Role): string {
    match r
    case UserRole => "user"
    case AdminRole => "admin"
  }

  /** How the schema treats a supplied `role`: absent gives the default
      'user'; a value outside the enum fails validation (`None`). */
  function CastRole(role: Option<string>): (r: Option<Role>)
    ensures role.None? ==> r == Some(UserRole)
    ensures r.None? <==> role.Some? && role.value != "user" && role.value != "admin"
    ensures role.Some? && r.Some? ==> RoleName(r.value) == role.value
  {
    match role
    case None => Some(UserRole)
    case Some(s) =>
      if s == "user" then Some(UserRole)
      else if s == "admin" then Some(AdminRole)
      else None
  }

  datatype User = User(id: string, name: string, email: string, password: string, role: Role)

  /** The characters a regular-expression `.` does not match. */
  predicate IsLineTerminator(c: char) {
    c in {'\n', '\r', '\U{2028}', '\U{2029}'}
  }

  predicate SingleLine(s: string) {
    forall m :: 0 <= m < |s| ==> !IsLineTerminator(s[m])
  }

  /** A match of `/.+\@.+\..+/` anchored on the '@' at position i and the
      '.' at position k: a non-terminator before the '@', at least one
      character strictly between the two, none of them a terminator, and a
      non-terminator right after the '.'. */
  predicate EmailMatchAt(s: string, i: int, k: int) {
    && 1 <= i && i + 1 < k && k + 1 < |s|
    && s[i] == '@' && s[k] == '.'
    && !IsLineTerminator(s[i - 1]) && !IsLineTerminator(s[k + 1])
    && SingleLine(s[i + 1..k])
  }

  /** Whether `/.+\@.+\..+/` (unanchored) matches somewhere in `s`. */
  predicate MatchesEmailPattern(s: string) {
    exists i, k | 0 <= i < k < |s| :: EmailMatchAt(s, i, k)
  }

  /** The paths that fail `userSchema`'s validators when a user with these
      fields is saved, in schema order: name (required, 3..50), email
      (required, the pattern), password (required, 6..100, checked on the
      stored value) and role (the enum). */
  function UserSchemaErrors(name: string, email: string, password: string, role: Option<string>): (paths: seq<string>)
    ensures "name" in paths <==> !(3 <= |name| <= 50)
    ensures "email" in paths <==> !MatchesEmailPattern(email)
    ensures "password" in paths <==> !(6 <= |password| <= 100)
    ensures "role" in paths <==> CastRole(role).None?
    ensures paths == [] <==>
      3 <= |name| <= 50 && MatchesEmailPattern(email) && 6 <= |password| <= 100 && CastRole(role).Some?
  {
    (if 3 <= |name| <= 50 then [] else ["name"])
    + (if MatchesEmailPattern(email) then [] else ["email"])
    + (if 6 <= |password| <= 100 then [] else ["password"])
    + (if CastRole(role).Some? then [] else ["role"])
  }

  /** A stored user that satisfies every field constraint of the schema. */
  predicate ValidUser(u: User) {
    UserSchemaErrors(u.name, u.email, u.password, Some(RoleName(u.role))) == []
  }

  /** A pattern match needs at least five characters, an '@' and a later '.'. */
  lemma EmailPatternShape(s: string)
    requires MatchesEmailPattern(s)
    ensures |s| >= 5 && '@' in s && '.' in s
  {
    var i, k :| 0 <= i < k < |s| && EmailMatchAt(s, i, k);
    assert 1 <= i && i + 1 < k && k + 1 < |s|;
    assert s[i] in s && s[k] in s;
  }

  /** Conversely, any single-line `local@domain.tld` with the three parts
      non-empty matches. */
  lemma EmailPatternAccepts(local: string, domain: string, tld: string)
    requires local != [] && domain != [] && tld != []
    requires SingleLine(local) && SingleLine(domain) && SingleLine(tld)
    ensures MatchesEmailPattern(local + "@" + domain + "." + tld)
  {
    var s := local + "@" + domain + "." + tld;
    var i, k := |local|, |local| + 1 + |domain|;
    assert s[i - 1] == local[|local| - 1];
    assert s[i + 1..k] == domain;
    assert s[k + 1] == tld[0];
    assert EmailMatchAt(s, i, k);
  }

  /** The pattern is not anchored: whatever surrounds a matching string,
      line breaks included, the whole still matches. */
  lemma EmailPatternUnanchored(s: string, before: string, after: string)
    requires MatchesEmailPattern(s)
    ensures MatchesEmailPattern(before + s + after)
  {
    var i, k :| 0 <= i < k < |s| && EmailMatchAt(s, i, k);
    var w := before + s + after;
    var o := |before|;
    assert w[o + i + 1..o + k] == s[i + 1..k];
    assert EmailMatchAt(w, o + i, o + k);
  }

  /** The `_id`s of the users collection, in order. The posts collection
      has its own `PostModel.Ids`: the two record types share no field
      Dafny could project generically. */
  function Ids(users: seq<User>): (ids: seq<string>)
    ensures |ids| == |users| && forall i :: 0 <= i < |users| ==> ids[i] == users[i].id
  {
    seq(|users|, i requires 0 <= i < |users| => users[i].id)
  }

  function Emails(users: seq<User>): (emails: seq<string>)
    ensures |emails| == |users| && forall i :: 0 <= i < |users| ==> emails[i] == users[i].email
  {
    seq(|users|, i requires 0 <= i < |users| => users[i].email)
  }

  /** The `users` collection: documents in insertion order, with unique
      non-empty identifiers and, by the schema's unique index, unique emails. */
  class UserCollection {
    var users: seq<User>

    ghost predicate Valid()
      reads this
    {
      && Distinct(Ids(users))
      && Distinct(Emails(users))
      && forall i :: 0 <= i < |users| ==> users[i].id != []
    }

    constructor ()
      ensures Valid() && users == []
    {
      users := [];
    }
  }
}
