/** The user record of domain/User.java and the errors the service raises. */
module Domain {
  import opened Wrappers

  /** A point in time (java.util.Date), in milliseconds since the epoch. */
  type Date = int

  /**
   * The persisted user record. A nullable column is an Option; `id` is None
   * until the repository assigns one on the first save.
   */
  datatype User = User(
    id: Option<int>,
    userId: string,
    firstName: string,
    lastName: string,
    username: string,
    password: string,
    email: string,
    profileImageUrl: string,
    lastLoginDate: Option<Date>,
    lastLoginDateDisplay: Option<Date>,
    joinDate: Option<Date>,
    roles: string,
    authorities: seq<string>,
    isActive: bool,
    isNotLocked: bool,
    rawPassword: string)

  /** The exceptions raised by the service, one constructor per exception class. */
  datatype Error =
    | UserNotFound       // UserNotFoundException (update-path validation)
    | UsernameExist      // UsernameExistException
    | EmailExist         // EmailExistException
    | EmailNotFound      // EmailNotFoundException (password reset)
    | UsernameNotFound   // Spring Security's UsernameNotFoundException (login lookup)
    | UnknownRole        // IllegalArgumentException from Role.valueOf
    | NullUser           // NullPointerException from using the null the create path returns
    | NoSuchEntity       // EmptyResultDataAccessException from deleteById of an absent id

  /** An uploaded profile image; only its presence matters to the model. */
  type Image = seq<bv8>

  predicate IsDigit(c: char) { '0' <= c <= '9' }

  predicate IsAsciiLetter(c: char) { 'a' <= c <= 'z' || 'A' <= c <= 'Z' }

  /** What RandomStringUtils.randomNumeric(n) produces. */
  predicate IsNumeric(s: string) {
    forall i :: 0 <= i < |s| ==> IsDigit(s[i])
  }

  /** What RandomStringUtils.randomAlphanumeric(n) produces. */
  predicate IsAlphanumeric(s: string) {
    forall i :: 0 <= i < |s| ==> IsDigit(s[i]) || IsAsciiLetter(s[i])
  }

  /** The length of the generated user id and of the generated password. */
  const GeneratedLength: nat := 10

  /**
   * generateUserId, RandomStringUtils.randomNumeric: one digit per random
   * draw. The draws come from the caller, as the random source is outside
   * the model.
   */
  function GenerateUserId(draws: seq<nat>): (id: string)
    ensures |id| == |draws| && IsNumeric(id)
  {
    seq(|draws|, i requires 0 <= i < |draws| => ('0' as int + draws[i] % 10) as char)
  }

  /** One of the 62 ASCII letters and digits, chosen by a draw. */
  function AlphanumericChar(d: nat): char {
    var k := d % 62;
    if k < 26 then ('A' as int + k) as char
    else if k < 52 then ('a' as int + (k - 26)) as char
    else ('0' as int + (k - 52)) as char
  }

  /**
   * generatePassword, RandomStringUtils.randomAlphanumeric: one ASCII letter
   * or digit per random draw.
   */
  function GeneratePassword(draws: seq<nat>): (password: string)
    ensures |password| == |draws| && IsAlphanumeric(password)
  {
    seq(|draws|, i requires 0 <= i < |draws| => AlphanumericChar(draws[i]))
  }

  /** Every numeric string is an id the generator can produce. */
  lemma GenerateUserIdCovers(id: string)
    requires IsNumeric(id)
    ensures exists draws :: GenerateUserId(draws) == id
  {
    var draws := seq(|id|, i requires 0 <= i < |id| => (id[i] as int - '0' as int) as nat);
    assert GenerateUserId(draws) == id;
  }

  /** The draw that AlphanumericChar maps to a given letter or digit. */
  function DrawOf(c: char): (d: nat)
    requires IsDigit(c) || IsAsciiLetter(c)
    ensures AlphanumericChar(d) == c
  {
    if 'A' <= c <= 'Z' then c as int - 'A' as int
    else if 'a' <= c <= 'z' then c as int - 'a' as int + 26
    else c as int - '0' as int + 52
  }

  /** Every alphanumeric string is a password the generator can produce. */
  lemma GeneratePasswordCovers(password: string)
    requires IsAlphanumeric(password)
    ensures exists draws :: GeneratePassword(draws) == password
  {
    var draws := seq(|password|, i requires 0 <= i < |password| => DrawOf(password[i]));
    assert GeneratePassword(draws) == password;
  }
}
