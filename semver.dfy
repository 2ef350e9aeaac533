/**
 * Version values and their precedence, as Semantic Versioning 2.0.0 section 11
 * defines it.  The changelog tool gets both from the `semver` library
 * (`VersionInfo.parse`, `compare`); this module states the ordering the tool
 * relies on, not the library's code.
 */
module SemVer {

  /** A dot-separated pre-release identifier: digits only, or containing a letter or hyphen. */
  datatype Identifier = Numeric(n: nat) | Alphanumeric(text: string)

  /** MAJOR.MINOR.PATCH, optional pre-release identifiers, optional build metadata. */
  datatype Version = Version(major: nat, minor: nat, patch: nat, pre: seq<Identifier>, build: seq<string>)

  /** Two versions have the same precedence when everything but the build metadata agrees. */
  predicate SamePrecedence(a: Version, b: Version) {
    a.major == b.major && a.minor == b.minor && a.patch == b.patch && a.pre == b.pre
  }

  function CompareNat(a: nat, b: nat): (c: int)
    ensures c < 0 <==> a < b
    ensures c == 0 <==> a == b
    ensures -1 <= c <= 1
  {
    if a < b then -1 else if a == b then 0 else 1
  }

  /** Lexical comparison in ASCII sort order; a proper prefix sorts first. */
  function CompareAscii(a: string, b: string): (c: int)
    ensures -1 <= c <= 1
  {
    if a == [] then (if b == [] then 0 else -1)
    else if b == [] then 1
    else if a[0] < b[0] then -1
    else if a[0] > b[0] then 1
    else CompareAscii(a[1..], b[1..])
  }

  /** Numeric identifiers compare numerically and sort before alphanumeric ones. */
  function CompareIdentifier(a: Identifier, b: Identifier): (c: int)
    ensures -1 <= c <= 1
    ensures a.Numeric? && b.Alphanumeric? ==> c == -1
    ensures a.Alphanumeric? && b.Numeric? ==> c == 1
  {
    match (a, b)
    case (Numeric(x), Numeric(y)) => CompareNat(x, y)
    case (Numeric(_), Alphanumeric(_)) => -1
    case (Alphanumeric(_), Numeric(_)) => 1
    case (Alphanumeric(s), Alphanumeric(t)) => CompareAscii(s, t)
  }

  /**
   * Identifier lists compare left to right until a difference is found; when one
   * list is a prefix of the other, the larger set of fields has higher precedence.
   */
  function CompareFields(a: seq<Identifier>, b: seq<Identifier>): (c: int)
    ensures -1 <= c <= 1
  {
    if a == [] then (if b == [] then 0 else -1)
    else if b == [] then 1
    else if CompareIdentifier(a[0], b[0]) != 0 then CompareIdentifier(a[0], b[0])
    else CompareFields(a[1..], b[1..])
  }

  /** A pre-release version has lower precedence than the associated normal version. */
  function ComparePre(a: seq<Identifier>, b: seq<Identifier>): (c: int)
    ensures a == [] && b != [] ==> c == 1
    ensures a != [] && b == [] ==> c == -1
    ensures -1 <= c <= 1
  {
    if a == [] && b == [] then 0
    else if a == [] then 1
    else if b == [] then -1
    else CompareFields(a, b)
  }

  /**
   * Precedence of two versions: negative, zero or positive as `a` is lower than,
   * equal in precedence to, or higher than `b`.  Build metadata is not consulted.
   */
  function Compare(a: Version, b: Version): (c: int)
    ensures -1 <= c <= 1
    ensures a.major != b.major ==> (c < 0 <==> a.major < b.major)
  {
    if a.major != b.major then CompareNat(a.major, b.major)
    else if a.minor != b.minor then CompareNat(a.minor, b.minor)
    else if a.patch != b.patch then CompareNat(a.patch, b.patch)
    else ComparePre(a.pre, b.pre)
  }

  // ---- CompareAscii is a total order ----

  lemma {:induction false} AsciiAntisymmetric(a: string, b: string)
    ensures CompareAscii(a, b) == -CompareAscii(b, a)
  {
    if a != [] && b != [] && a[0] == b[0] {
      AsciiAntisymmetric(a[1..], b[1..]);
    }
  }

  lemma {:induction false} AsciiZeroIff(a: string, b: string)
    ensures CompareAscii(a, b) == 0 <==> a == b
  {
    if a != [] && b != [] && a[0] == b[0] {
      AsciiZeroIff(a[1..], b[1..]);
      if a[1..] == b[1..] {
        assert a == [a[0]] + a[1..] && b == [b[0]] + b[1..];
      }
    }
  }

  lemma {:induction false} AsciiTransitive(a: string, b: string, c: string)
    requires CompareAscii(a, b) <= 0 && CompareAscii(b, c) <= 0
    ensures CompareAscii(a, c) <= 0
  {
    if a != [] && b != [] && c != [] && a[0] == b[0] == c[0] {
      AsciiTransitive(a[1..], b[1..], c[1..]);
    }
  }

  // ---- CompareIdentifier is a total order ----

  lemma IdentifierAntisymmetric(a: Identifier, b: Identifier)
    ensures CompareIdentifier(a, b) == -CompareIdentifier(b, a)
  {
    if a.Alphanumeric? && b.Alphanumeric? {
      AsciiAntisymmetric(a.text, b.text);
    }
  }

  lemma IdentifierZeroIff(a: Identifier, b: Identifier)
    ensures CompareIdentifier(a, b) == 0 <==> a == b
  {
    if a.Alphanumeric? && b.Alphanumeric? {
      AsciiZeroIff(a.text, b.text);
    }
  }

  lemma IdentifierTransitive(a: Identifier, b: Identifier, c: Identifier)
    requires CompareIdentifier(a, b) <= 0 && CompareIdentifier(b, c) <= 0
    ensures CompareIdentifier(a, c) <= 0
  {
    if a.Alphanumeric? && b.Alphanumeric? && c.Alphanumeric? {
      AsciiTransitive(a.text, b.text, c.text);
    }
  }

  // ---- CompareFields and ComparePre are total orders ----

  lemma {:induction false} FieldsAntisymmetric(a: seq<Identifier>, b: seq<Identifier>)
    ensures CompareFields(a, b) == -CompareFields(b, a)
  {
    if a != [] && b != [] {
      IdentifierAntisymmetric(a[0], b[0]);
      FieldsAntisymmetric(a[1..], b[1..]);
    }
  }

  lemma {:induction false} FieldsZeroIff(a: seq<Identifier>, b: seq<Identifier>)
    ensures CompareFields(a, b) == 0 <==> a == b
  {
    if a != [] && b != [] {
      IdentifierZeroIff(a[0], b[0]);
      FieldsZeroIff(a[1..], b[1..]);
      if a[0] == b[0] && a[1..] == b[1..] {
        assert a == [a[0]] + a[1..] && b == [b[0]] + b[1..];
      }
    }
  }

  lemma {:induction false} FieldsTransitive(a: seq<Identifier>, b: seq<Identifier>, c: seq<Identifier>)
    requires CompareFields(a, b) <= 0 && CompareFields(b, c) <= 0
    ensures CompareFields(a, c) <= 0
  {
    if a != [] && b != [] && c != [] {
      IdentifierZeroIff(a[0], b[0]);
      IdentifierZeroIff(b[0], c[0]);
      IdentifierTransitive(a[0], b[0], c[0]);
      if a[0] == b[0] == c[0] {
        FieldsTransitive(a[1..], b[1..], c[1..]);
      } else if a[0] == b[0] {
        assert CompareIdentifier(a[0], c[0]) == CompareIdentifier(b[0], c[0]);
      } else if b[0] == c[0] {
        assert CompareIdentifier(a[0], c[0]) == CompareIdentifier(a[0], b[0]);
      } else {
        IdentifierZeroIff(a[0], c[0]);
        if a[0] == c[0] {
          IdentifierAntisymmetric(a[0], b[0]);
        }
      }
    }
  }

  lemma PreAntisymmetric(a: seq<Identifier>, b: seq<Identifier>)
    ensures ComparePre(a, b) == -ComparePre(b, a)
  {
    FieldsAntisymmetric(a, b);
  }

  lemma PreZeroIff(a: seq<Identifier>, b: seq<Identifier>)
    ensures ComparePre(a, b) == 0 <==> a == b
  {
    FieldsZeroIff(a, b);
  }

  lemma PreTransitive(a: seq<Identifier>, b: seq<Identifier>, c: seq<Identifier>)
    requires ComparePre(a, b) <= 0 && ComparePre(b, c) <= 0
    ensures ComparePre(a, c) <= 0
  {
    if a != [] && b != [] && c != [] {
      FieldsTransitive(a, b, c);
    }
  }

  // ---- Version precedence is a total preorder whose ties are exactly SamePrecedence ----

  /** Swapping the arguments negates the comparison. */
  lemma CompareAntisymmetric(a: Version, b: Version)
    ensures Compare(a, b) == -Compare(b, a)
  {
    PreAntisymmetric(a.pre, b.pre);
  }

  /** Two versions compare equal exactly when they differ at most in build metadata. */
  lemma CompareZeroIff(a: Version, b: Version)
    ensures Compare(a, b) == 0 <==> SamePrecedence(a, b)
  {
    PreZeroIff(a.pre, b.pre);
  }

  /** "Not higher than" is transitive. */
  lemma CompareTransitive(a: Version, b: Version, c: Version)
    requires Compare(a, b) <= 0 && Compare(b, c) <= 0
    ensures Compare(a, c) <= 0
  {
    if a.major == b.major == c.major && a.minor == b.minor == c.minor && a.patch == b.patch == c.patch {
      PreTransitive(a.pre, b.pre, c.pre);
    }
  }

  /** "Lower than" is transitive, also when one of the steps is only "not higher than". */
  lemma CompareStrictTransitive(a: Version, b: Version, c: Version)
    requires Compare(a, b) <= 0 && Compare(b, c) <= 0
    requires Compare(a, b) < 0 || Compare(b, c) < 0
    ensures Compare(a, c) < 0
  {
    CompareTransitive(a, b, c);
    CompareZeroIff(a, c);
    CompareZeroIff(a, b);
    CompareZeroIff(b, c);
    CompareAntisymmetric(a, b);
  }

  /** The precedence chain given as an example in section 11 of Semantic Versioning 2.0.0. */
  lemma PrecedenceExample()
    ensures var v := (pre: seq<Identifier>) => Version(1, 0, 0, pre, []);
      && Compare(v([Alphanumeric("alpha")]), v([Alphanumeric("alpha"), Numeric(1)])) < 0
      && Compare(v([Alphanumeric("alpha"), Numeric(1)]), v([Alphanumeric("alpha"), Alphanumeric("beta")])) < 0
      && Compare(v([Alphanumeric("alpha"), Alphanumeric("beta")]), v([Alphanumeric("beta")])) < 0
      && Compare(v([Alphanumeric("beta")]), v([Alphanumeric("beta"), Numeric(2)])) < 0
      && Compare(v([Alphanumeric("beta"), Numeric(2)]), v([Alphanumeric("beta"), Numeric(11)])) < 0
      && Compare(v([Alphanumeric("beta"), Numeric(11)]), v([Alphanumeric("rc"), Numeric(1)])) < 0
      && Compare(v([Alphanumeric("rc"), Numeric(1)]), v([])) < 0
      && Compare(Version(1, 0, 0, [], []), Version(2, 0, 0, [], [])) < 0
      && Compare(Version(2, 0, 0, [], []), Version(2, 1, 0, [], [])) < 0
      && Compare(Version(2, 1, 0, [], []), Version(2, 1, 1, [], [])) < 0
  {
  }
}
