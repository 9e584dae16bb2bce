/**
 * Shared vocabulary of the DigitSchool services: optional values, handler
 * outcomes with their HTTP status, the identifier shape the request schemas
 * accept, decimal rendering of timestamps, and the rows of the tables that
 * one service owns and the others only read (auth.users, usr.classes,
 * usr.class_members).
 */
module Common {

  datatype Option<T> = None | Some(value: T)

  /** What a route handler sends back: a status and a payload, or only a status. */
  datatype Result<T> = Success(status: int, value: T) | Failure(status: int)

  const OK: int := 200
  const CREATED: int := 201
  const BAD_REQUEST: int := 400
  const NOT_FOUND: int := 404
  const CONFLICT: int := 409
  const SERVER_ERROR: int := 500

  /** JavaScript truthiness of an optional query or body string: present and non-empty. */
  predicate Truthy(s: Option<string>) {
    s.Some? && s.value != ""
  }

  predicate IsHexDigit(c: char) {
    ('0' <= c <= '9') || ('a' <= c <= 'f') || ('A' <= c <= 'F')
  }

  predicate IsDigit(c: char) {
    '0' <= c <= '9'
  }

  /** The 8-4-4-4-12 hexadecimal shape that the request schemas require of identifiers. */
  predicate IsUuid(s: string) {
    |s| == 36 &&
    forall i :: 0 <= i < |s| ==>
      if i == 8 || i == 13 || i == 18 || i == 23 then s[i] == '-' else IsHexDigit(s[i])
  }

  /** A hex letter in lower case; every other character unchanged. */
  function LowerHex(c: char): char {
    if 'A' <= c <= 'F' then (c as int - 'A' as int + 'a' as int) as char else c
  }

  /**
   * The spelling PostgreSQL gives a uuid it stores or returns: the same
   * characters with hex letters in lower case. Its uuid comparison treats
   * every spelling with the same canonical form as the same value.
   */
  function CanonicalId(s: string): (r: string)
    ensures |r| == |s|
    ensures forall i :: 0 <= i < |s| ==> r[i] == LowerHex(s[i])
  {
    seq(|s|, i requires 0 <= i < |s| => LowerHex(s[i]))
  }

  /** The canonical spelling of a uuid is a uuid, and its own canonical spelling. */
  lemma CanonicalUuid(s: string)
    requires IsUuid(s)
    ensures IsUuid(CanonicalId(s))
    ensures CanonicalId(CanonicalId(s)) == CanonicalId(s)
  {
    var c := CanonicalId(s);
    forall i | 0 <= i < |c| && i != 8 && i != 13 && i != 18 && i != 23 ensures IsHexDigit(c[i]) {
      assert IsHexDigit(s[i]);
    }
    assert CanonicalId(c) == c;
  }

  lemma UuidHasNoColon(s: string)
    requires IsUuid(s)
    ensures ':' !in s
  {
    forall i | 0 <= i < |s| ensures s[i] != ':' {
      if i == 8 || i == 13 || i == 18 || i == 23 {
      } else {
        assert IsHexDigit(s[i]);
      }
    }
  }

  function DigitChar(d: nat): (c: char)
    requires d < 10
    ensures IsDigit(c) && c as int - '0' as int == d
  {
    ('0' as int + d) as char
  }

  /** Decimal rendering of a natural number, as `${n}` does for Date.now(). */
  function Decimal(n: nat): (s: string)
    ensures |s| > 0
    ensures forall i :: 0 <= i < |s| ==> IsDigit(s[i])
  {
    if n < 10 then [DigitChar(n)] else Decimal(n / 10) + [DigitChar(n % 10)]
  }

  /** Reading the digits back gives the number: the rendering loses nothing. */
  function DigitsValue(s: string): (n: nat)
    requires forall i :: 0 <= i < |s| ==> IsDigit(s[i])
  {
    if s == [] then 0
    else
      assert IsDigit(s[|s| - 1]);
      DigitsValue(s[..|s| - 1]) * 10 + (s[|s| - 1] as int - '0' as int)
  }

  lemma {:induction false} DecimalRoundTrip(n: nat)
    ensures DigitsValue(Decimal(n)) == n
  {
    if n >= 10 {
      var s := Decimal(n);
      assert s[..|s| - 1] == Decimal(n / 10);
      DecimalRoundTrip(n / 10);
    }
  }

  lemma DecimalInjective(m: nat, n: nat)
    requires Decimal(m) == Decimal(n)
    ensures m == n
  {
    DecimalRoundTrip(m);
    DecimalRoundTrip(n);
  }

  // ---- rows of tables owned by the identity and roster services ----

  /** auth.users: identity, e-mail and account role ('teacher', 'student', ...). */
  datatype User = User(id: string, email: string, role: string)

  /** usr.classes */
  datatype ClassRow = ClassRow(id: string, name: string, level: string)

  /** usr.class_members: the membership role is 'teacher' or 'student'. */
  datatype Member = Member(class_id: string, user_id: string, role: string)

  function FindUser(users: seq<User>, id: string): (r: Option<User>)
    ensures r.Some? ==> r.value in users && r.value.id == id
    ensures r.None? ==> forall u :: u in users ==> u.id != id
  {
    if users == [] then None
    else if users[0].id == id then Some(users[0])
    else FindUser(users[1..], id)
  }

  function FindClass(classes: seq<ClassRow>, id: string): (r: Option<ClassRow>)
    ensures r.Some? ==> r.value in classes && r.value.id == id
    ensures r.None? ==> forall c :: c in classes ==> c.id != id
  {
    if classes == [] then None
    else if classes[0].id == id then Some(classes[0])
    else FindClass(classes[1..], id)
  }
}
