/** License keys: `<PREFIX>-<YYYYMMDD>` with an expiry date, accepted only while unexpired and only
    when the salted SHA-256 digest of the key is in the known-hash list. Date parsing, today's
    date and the digest are inputs. */
module License {
  import opened Wrappers
  import opened Text

  /** `VALID_HASHES`, the list shipped with the validator. */
  const ValidHashes: set<string> := {"d41d8cd98f00b204e9800998ecf8427e"}

  /** `LicenseManager.SALT`, appended to the key before hashing. */
  const Salt := "netscanner"

  /** A calendar date, as `datetime.date`. */
  datatype Date = Date(year: int, month: int, day: int)

  /** `a < b` on dates. */
  predicate Before(a: Date, b: Date) {
    a.year < b.year || (a.year == b.year && (a.month < b.month || (a.month == b.month && a.day < b.day)))
  }

  // ---------------------------------------------------------------------------------------------
  // re.match(r"^[A-Z0-9]+-\d{8}$", key)
  // ---------------------------------------------------------------------------------------------

  predicate IsKeyChar(c: char) {
    'A' <= c <= 'Z' || '0' <= c <= '9'
  }

  predicate AllKeyChars(s: string) {
    forall k | 0 <= k < |s| :: IsKeyChar(s[k])
  }

  /** The pattern as matched: the prefix run cannot take the dash, so it ends just before it;
      eight digits follow, and `$` holds at the end of the key or before a final newline. */
  predicate WellFormedKey(key: string) {
    var n := SpanEnd(key, 0, IsKeyChar);
    1 <= n && n + 9 <= |key| && key[n] == '-' && AllDigits(key[n + 1..n + 9]) &&
    (|key| == n + 9 || (|key| == n + 10 && key[n + 9] == '\n'))
  }

  /** The keys of the pattern, directly: a non-empty prefix of capitals and digits, a dash and
      eight digits, optionally followed by one newline. */
  ghost predicate KeyShape(key: string) {
    exists prefix: string, digits: string | |prefix| >= 1 && AllKeyChars(prefix) && |digits| == 8 && AllDigits(digits) ::
      key == prefix + "-" + digits || key == prefix + "-" + digits + "\n"
  }

  /** The matcher accepts exactly the keys of that shape. */
  lemma WellFormedKeyIff(key: string)
    ensures WellFormedKey(key) <==> KeyShape(key)
  {
    if WellFormedKey(key) {
      var n := SpanEnd(key, 0, IsKeyChar);
      var prefix, digits := key[..n], key[n + 1..n + 9];
      assert AllKeyChars(prefix) by {
        assert forall k | 0 <= k < n :: prefix[k] == key[k];
      }
      if |key| == n + 9 {
        assert key == prefix + "-" + digits;
      } else {
        assert key == prefix + "-" + digits + "\n";
      }
    }
    if KeyShape(key) {
      var prefix: string, digits: string :| |prefix| >= 1 && AllKeyChars(prefix) && |digits| == 8 && AllDigits(digits) &&
        (key == prefix + "-" + digits || key == prefix + "-" + digits + "\n");
      ShapeIsWellFormed(key, prefix, digits);
    }
  }

  lemma ShapeIsWellFormed(key: string, prefix: string, digits: string)
    requires |prefix| >= 1 && AllKeyChars(prefix) && |digits| == 8 && AllDigits(digits)
    requires key == prefix + "-" + digits || key == prefix + "-" + digits + "\n"
    ensures WellFormedKey(key)
  {
    var n := |prefix|;
    assert forall k | 0 <= k < n :: key[k] == prefix[k];
    assert key[n] == '-';
    SpanEndIs(key, 0, IsKeyChar, n);
    assert key[n + 1..n + 9] == digits;
  }

  // ---------------------------------------------------------------------------------------------
  // key.split('-')[1]
  // ---------------------------------------------------------------------------------------------

  /** The part after the dash of a well-formed key: `key.split('-')[1]`, the eight digits and the
      final newline if there is one. */
  function DatePart(key: string): (r: string)
    requires WellFormedKey(key)
    ensures var n := SpanEnd(key, 0, IsKeyChar); r == key[n + 1..]
  {
    var n := SpanEnd(key, 0, IsKeyChar);
    SplitAtOnlyDash(key, n);
    Split(key, "-")[1]
  }

  /** A key with one dash splits into the text before it and the text after it. */
  lemma SplitAtOnlyDash(key: string, n: nat)
    requires n < |key| && key[n] == '-'
    requires forall k | 0 <= k < |key| && k != n :: key[k] != '-'
    ensures Split(key, "-") == [key[..n], key[n + 1..]]
  {
    DashAt(key, n);
    var rest := key[n + 1..];
    assert !Contains(rest, "-") by {
      forall j | 0 <= j < |rest| ensures !StartsAt(rest, j, "-") {
        DashAt(rest, j);
      }
    }
    assert IndexOf(key, "-", 0) == Some(n) by {
      forall j | 0 <= j < n ensures !StartsAt(key, j, "-") {
        DashAt(key, j);
      }
    }
    SplitWithoutSeparator(rest, "-");
  }

  /** The one-letter text "-" occurs at `j` exactly when the letter there is a dash. */
  lemma DashAt(s: string, j: nat)
    requires j < |s|
    ensures StartsAt(s, j, "-") <==> s[j] == '-'
  {
    assert s[j..j + 1] == [s[j]];
  }

  // ---------------------------------------------------------------------------------------------
  // LicenseManager.validate_key
  // ---------------------------------------------------------------------------------------------

  /** `LicenseManager.validate_key(key)`, with `strptime(…, '%Y%m%d')` given as `parseDate`
      (`None` where it raises ValueError), `utcnow().date()` as `today`, the SHA-256 hex digest
      as `sha256` and the known hashes as `validHashes`. The checks run in order: format, then
      expiry, then the hash; a key is valid exactly when all three pass, and a key expiring today
      has not expired. */
  function ValidateKey(key: string, today: Date, parseDate: string -> Option<Date>, sha256: string -> string,
                       validHashes: set<string>): (ok: bool)
    ensures ok <==> WellFormedKey(key) && parseDate(DatePart(key)).Some? &&
                    !Before(parseDate(DatePart(key)).value, today) && sha256(key + Salt) in validHashes
  {
    if !WellFormedKey(key) then false
    else
      match parseDate(DatePart(key))
      case None => false
      case Some(expiry) =>
        if Before(expiry, today) then false
        else sha256(key + Salt) in validHashes
  }

  /** The checks short-circuit: the digest matters only for a well-formed key whose date parses
      and has not passed, and the date parser only for a well-formed key. */
  lemma ChecksShortCircuit(key: string, today: Date, parseDate: string -> Option<Date>, parseDate': string -> Option<Date>,
                           sha256: string -> string, sha256': string -> string, validHashes: set<string>)
    ensures !WellFormedKey(key) ==>
              !ValidateKey(key, today, parseDate, sha256, validHashes) &&
              ValidateKey(key, today, parseDate, sha256, validHashes) == ValidateKey(key, today, parseDate', sha256', validHashes)
    ensures WellFormedKey(key) && (parseDate(DatePart(key)).None? || Before(parseDate(DatePart(key)).value, today)) ==>
              !ValidateKey(key, today, parseDate, sha256, validHashes) &&
              ValidateKey(key, today, parseDate, sha256, validHashes) == ValidateKey(key, today, parseDate, sha256', validHashes)
  {
  }

  /** A key expiring on the day it is checked is still valid when its hash is known. */
  lemma ExpiryDayIsValid(key: string, today: Date, parseDate: string -> Option<Date>, sha256: string -> string,
                         validHashes: set<string>)
    requires WellFormedKey(key) && parseDate(DatePart(key)) == Some(today) && sha256(key + Salt) in validHashes
    ensures ValidateKey(key, today, parseDate, sha256, validHashes)
  {
  }

  /** A key without a dash is refused whatever its date and hash would be. */
  lemma KeyWithoutDashIsRefused(key: string, today: Date, parseDate: string -> Option<Date>, sha256: string -> string,
                                validHashes: set<string>)
    requires forall k | 0 <= k < |key| :: key[k] != '-'
    ensures !ValidateKey(key, today, parseDate, sha256, validHashes)
  {
  }

  /** "COMPANY-20991231" passes the format check and hands "20991231" to the date parser. */
  lemma SampleKeyIsWellFormed()
    ensures WellFormedKey("COMPANY-20991231") && DatePart("COMPANY-20991231") == "20991231"
  {
    var key := "COMPANY-20991231";
    assert AllKeyChars("COMPANY") && AllDigits("20991231");
    assert key == "COMPANY" + "-" + "20991231";
    ShapeIsWellFormed(key, "COMPANY", "20991231");
    assert forall k | 0 <= k < 7 :: key[k] == "COMPANY"[k];
    SpanEndIs(key, 0, IsKeyChar, 7);
  }

  /** The shipped hash is 32 hex digits long, the length of an MD5 digest, while a SHA-256 hex
      digest has 64: with the shipped list no key validates. */
  lemma NoKeyValidatesWithShippedHashes(key: string, today: Date, parseDate: string -> Option<Date>, sha256: string -> string)
    requires forall s :: |sha256(s)| == 64
    ensures !ValidateKey(key, today, parseDate, sha256, ValidHashes)
  {
    var h := sha256(key + Salt);
    assert |h| == 64;
    assert |"d41d8cd98f00b204e9800998ecf8427e"| == 32;
  }
}
