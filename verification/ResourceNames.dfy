// Sanitising names for Kubernetes resources and labels (internal/pkg/manifests/options.go).
// A character stands for one byte of an ASCII string.

module ResourceNames {
  import opened Basics

  // ---------------------------------------------------------------- characters

  predicate IsLowerAlphaNumeric(c: char) {
    'a' <= c <= 'z' || '0' <= c <= '9'
  }

  predicate IsAlphaNumeric(c: char) {
    IsLowerAlphaNumeric(c) || 'A' <= c <= 'Z'
  }

  predicate IsLabelChar(c: char) {
    IsLowerAlphaNumeric(c) || c == '-'
  }

  function LowerChar(c: char): char {
    if 'A' <= c <= 'Z' then c - 'A' + 'a' else c
  }

  function ToLower(s: string): (r: string)
    ensures |r| == |s| && forall i | 0 <= i < |s| :: r[i] == LowerChar(s[i])
  {
    if s == "" then "" else [LowerChar(s[0])] + ToLower(s[1..])
  }

  // ---------------------------------------------------------------- validity

  const DNS1123_LABEL_MAX_LENGTH := 63

  const DNS1123_SUBDOMAIN_MAX_LENGTH := 253

  const HASH_SUFFIX_LENGTH := 16

  /** A label as in section 2.1 of RFC 1123, in lower case. */
  predicate IsDns1123Label(s: string) {
    && 1 <= |s| <= DNS1123_LABEL_MAX_LENGTH
    && IsLowerAlphaNumeric(s[0]) && IsLowerAlphaNumeric(s[|s| - 1])
    && forall i | 0 <= i < |s| :: IsLabelChar(s[i])
  }

  /** Labels separated by dots: a dot stands between two alphanumeric characters. */
  predicate IsDns1123Subdomain(s: string) {
    && 1 <= |s| <= DNS1123_SUBDOMAIN_MAX_LENGTH
    && IsLowerAlphaNumeric(s[0]) && IsLowerAlphaNumeric(s[|s| - 1])
    && forall i | 0 <= i < |s| ::
         || IsLowerAlphaNumeric(s[i]) || s[i] == '-'
         || (s[i] == '.' && 0 < i < |s| - 1 && IsLowerAlphaNumeric(s[i - 1]) && IsLowerAlphaNumeric(s[i + 1]))
  }

  predicate IsValidLabelValue(s: string) {
    s == "" || (
      && |s| <= DNS1123_LABEL_MAX_LENGTH
      && IsAlphaNumeric(s[0]) && IsAlphaNumeric(s[|s| - 1])
      && forall i | 0 <= i < |s| :: IsAlphaNumeric(s[i]) || s[i] in {'-', '_', '.'})
  }

  // ---------------------------------------------------------------- sanitising

  function TrimLeft(s: string): string {
    if s != "" && !IsLowerAlphaNumeric(s[0]) then TrimLeft(s[1..]) else s
  }

  function TrimRight(s: string): string {
    if s != "" && !IsLowerAlphaNumeric(s[|s| - 1]) then TrimRight(s[..|s| - 1]) else s
  }

  function EnsureAlphaNumericTrailingChars(s: string): string {
    TrimRight(TrimLeft(s))
  }

  /** Go's `strings.Replace(s, old, new, -1)` for a single character. */
  function ReplaceAll(s: string, from: char, to: string): string {
    if s == "" then "" else (if s[0] == from then to else [s[0]]) + ReplaceAll(s[1..], from, to)
  }

  /** The replacements, in their order. */
  function ReplaceBadChars(s0: string): string {
    var s1 := ReplaceAll(s0, '*', "-");
    var s2 := ReplaceAll(s1, '/', "-");
    var s3 := ReplaceAll(s2, '.', "-");
    var s4 := ReplaceAll(s3, '[', "");
    var s5 := ReplaceAll(s4, ']', "");
    var s6 := ReplaceAll(s5, ':', "-");
    var s7 := ReplaceAll(s6, '_', "-");
    var s8 := ReplaceAll(s7, ' ', "-");
    var s9 := ReplaceAll(s8, '\n', "");
    var s10 := ReplaceAll(s9, '\"', "");
    ReplaceAll(s10, '\'', "")
  }

  /** `hash` stands for the hex digest of SHA-256, of which `hashString` keeps the first 16 digits. */
  ghost predicate IsHexHash(hash: string -> string) {
    forall s :: |hash(s)| == HASH_SUFFIX_LENGTH && forall c | c in hash(s) :: '0' <= c <= '9' || 'a' <= c <= 'f'
  }

  function SanitizeToLength(value: string, length: nat, hash: string -> string): string {
    var v := ReplaceBadChars(value);
    var shortened :=
      if |v| > length then
        if length > HASH_SUFFIX_LENGTH then v[..length - HASH_SUFFIX_LENGTH - 1] + "-" + hash(v) else v[..length]
      else v;
    ToLower(ReplaceAll(shortened, '.', "-"))
  }

  /** A value as it is or, if longer than a label may be, its beginning and the hash of the whole. */
  function Shortened(v: string, hash: string -> string): string {
    if |v| > DNS1123_LABEL_MAX_LENGTH then v[..46] + ("-" + hash(v)) else v
  }

  function ValidateAndSanitizeResourceName(name: string, hash: string -> string): string {
    if IsDns1123Subdomain(name) then name
    else SanitizeToLength(EnsureAlphaNumericTrailingChars(name), DNS1123_LABEL_MAX_LENGTH, hash)
  }

  function ValidateAndSanitizeNameToValidLabelValue(value: string, hash: string -> string): string {
    if IsValidLabelValue(value) then value
    else SanitizeToLength(EnsureAlphaNumericTrailingChars(value), DNS1123_LABEL_MAX_LENGTH, hash)
  }

  // ---------------------------------------------------------------- the replacements, character by character

  /** What becomes of one character. */
  function Image(c: char): string {
    if c in {'*', '/', '.', ':', '_', ' '} then "-"
    else if c in {'[', ']', '\n', '\"', '\''} then ""
    else [c]
  }

  predicate IsReplaced(c: char) {
    c in {'*', '/', '.', ':', '_', ' ', '[', ']', '\n', '\"', '\''}
  }

  function Images(s: string): string {
    if s == "" then "" else Image(s[0]) + Images(s[1..])
  }

  lemma {:induction false} ReplaceAllConcat(a: string, b: string, from: char, to: string)
    ensures ReplaceAll(a + b, from, to) == ReplaceAll(a, from, to) + ReplaceAll(b, from, to)
  {
    if a == "" {
      assert a + b == b;
    } else {
      assert (a + b)[1..] == a[1..] + b;
      ReplaceAllConcat(a[1..], b, from, to);
    }
  }

  lemma ReplaceOne(c: char, from: char, to: string)
    ensures ReplaceAll([c], from, to) == if c == from then to else [c]
  {
    assert [c][1..] == "";
  }

  lemma ReplaceBadCharsConcat(a: string, b: string)
    ensures ReplaceBadChars(a + b) == ReplaceBadChars(a) + ReplaceBadChars(b)
  {
    var a1, b1 := ReplaceAll(a, '*', "-"), ReplaceAll(b, '*', "-");
    var a2, b2 := ReplaceAll(a1, '/', "-"), ReplaceAll(b1, '/', "-");
    var a3, b3 := ReplaceAll(a2, '.', "-"), ReplaceAll(b2, '.', "-");
    var a4, b4 := ReplaceAll(a3, '[', ""), ReplaceAll(b3, '[', "");
    var a5, b5 := ReplaceAll(a4, ']', ""), ReplaceAll(b4, ']', "");
    var a6, b6 := ReplaceAll(a5, ':', "-"), ReplaceAll(b5, ':', "-");
    var a7, b7 := ReplaceAll(a6, '_', "-"), ReplaceAll(b6, '_', "-");
    var a8, b8 := ReplaceAll(a7, ' ', "-"), ReplaceAll(b7, ' ', "-");
    var a9, b9 := ReplaceAll(a8, '\n', ""), ReplaceAll(b8, '\n', "");
    var a10, b10 := ReplaceAll(a9, '\"', ""), ReplaceAll(b9, '\"', "");
    ReplaceAllConcat(a, b, '*', "-");
    ReplaceAllConcat(a1, b1, '/', "-");
    ReplaceAllConcat(a2, b2, '.', "-");
    ReplaceAllConcat(a3, b3, '[', "");
    ReplaceAllConcat(a4, b4, ']', "");
    ReplaceAllConcat(a5, b5, ':', "-");
    ReplaceAllConcat(a6, b6, '_', "-");
    ReplaceAllConcat(a7, b7, ' ', "-");
    ReplaceAllConcat(a8, b8, '\n', "");
    ReplaceAllConcat(a9, b9, '\"', "");
    ReplaceAllConcat(a10, b10, '\'', "");
  }

  lemma ReplaceBadChar(c: char)
    ensures ReplaceBadChars([c]) == Image(c)
    ensures ReplaceBadChars("") == ""
  {
    if IsReplaced(c) {
      ReplaceOne('-', '/', "-");
    }
    forall from: char, d: char, to: string ensures ReplaceAll([d], from, to) == if d == from then to else [d] {
      ReplaceOne(d, from, to);
    }
  }

  lemma {:induction false} ReplacementsAreImages(s: string)
    ensures ReplaceBadChars(s) == Images(s)
  {
    if s == "" {
      ReplaceBadChar('a');
    } else {
      assert s == [s[0]] + s[1..];
      ReplaceBadCharsConcat([s[0]], s[1..]);
      ReplaceBadChar(s[0]);
      ReplacementsAreImages(s[1..]);
    }
  }

  lemma {:induction false} ImagesConcat(a: string, b: string)
    ensures Images(a + b) == Images(a) + Images(b)
  {
    if a == "" {
      assert a + b == b;
    } else {
      assert (a + b)[1..] == a[1..] + b;
      ImagesConcat(a[1..], b);
    }
  }

  lemma {:induction false} ImagesAreClean(s: string)
    ensures forall c | c in Images(s) :: !IsReplaced(c) && (c == '-' || c in s)
  {
    if s == "" {
    } else {
      ImagesAreClean(s[1..]);
    }
  }

  lemma {:induction false} CleanImages(s: string)
    requires forall c | c in s :: !IsReplaced(c)
    ensures Images(s) == s
  {
    if s == "" {
    } else {
      assert s[0] in s;
      CleanImages(s[1..]);
    }
  }

  lemma {:induction false} ReplaceNothing(s: string, from: char, to: string)
    requires from !in s
    ensures ReplaceAll(s, from, to) == s
  {
    if s == "" {
    } else {
      ReplaceNothing(s[1..], from, to);
    }
  }

  // ---------------------------------------------------------------- trimming

  /** Starts and ends with a lower-case letter or a digit. */
  predicate Trimmed(s: string) {
    s != "" && IsLowerAlphaNumeric(s[0]) && IsLowerAlphaNumeric(s[|s| - 1])
  }

  lemma {:induction false} TrimLeftMeaning(s: string)
    ensures var t := TrimLeft(s);
            && |t| <= |s| && t == s[|s| - |t|..]
            && (t != "" ==> IsLowerAlphaNumeric(t[0]))
            && (t == "" <==> forall c | c in s :: !IsLowerAlphaNumeric(c))
  {
    if s != "" && !IsLowerAlphaNumeric(s[0]) {
      TrimLeftMeaning(s[1..]);
      assert s == [s[0]] + s[1..];
    } else if s != "" {
      assert s[0] in s;
    }
  }

  lemma {:induction false} TrimRightMeaning(s: string)
    requires s != "" ==> IsLowerAlphaNumeric(s[0])
    ensures var t := TrimRight(s);
            && |t| <= |s| && t == s[..|t|]
            && (t == "" <==> s == "") && (t != "" ==> Trimmed(t))
  {
    if s != "" && !IsLowerAlphaNumeric(s[|s| - 1]) {
      TrimRightMeaning(s[..|s| - 1]);
    }
  }

  /** Trimming leaves a trimmed part of the name, or nothing if the name has no lower-case letter or digit. */
  lemma TrimMeaning(s: string)
    ensures var t := EnsureAlphaNumericTrailingChars(s);
            && (t == "" <==> forall c | c in s :: !IsLowerAlphaNumeric(c))
            && (t != "" ==> Trimmed(t))
            && (forall c | c in t :: c in s)
  {
    TrimLeftMeaning(s);
    TrimRightMeaning(TrimLeft(s));
  }

  lemma TrimIdempotent(s: string)
    requires s == "" || Trimmed(s)
    ensures EnsureAlphaNumericTrailingChars(s) == s
  {
  }

  // ---------------------------------------------------------------- the result

  /** The characters of the name that reach the result: all of them after replacement, or the first 46
      when a hash has to take the place of the rest. */
  function Retained(name: string): string {
    var v := Images(EnsureAlphaNumericTrailingChars(name));
    if |v| > DNS1123_LABEL_MAX_LENGTH then v[..46] else v
  }

  lemma ImagesTrimmed(t: string)
    requires Trimmed(t)
    ensures var v := Images(t);
            v != "" && v[0] == t[0] && v[|v| - 1] == t[|t| - 1]
  {
    var first, last := t[0], t[|t| - 1];
    assert Image(first) == [first] && Image(last) == [last];
    assert t == t[..|t| - 1] + [last];
    ImagesConcat(t[..|t| - 1], [last]);
    assert Images([last]) == [last] + Images([last][1..]) == [last];
  }

  predicate Clean(s: string) {
    forall i | 0 <= i < |s| :: !IsReplaced(s[i])
  }

  lemma ShortenedMeaning(v: string, hash: string -> string)
    requires IsHexHash(hash) && Trimmed(v) && Clean(v)
    ensures var r := Shortened(v, hash);
            |r| <= DNS1123_LABEL_MAX_LENGTH && Trimmed(r) && Clean(r)
  {
    if |v| > DNS1123_LABEL_MAX_LENGTH {
      var h := hash(v);
      forall i | 0 <= i < |h| ensures IsLowerAlphaNumeric(h[i]) && !IsReplaced(h[i]) {
        assert h[i] in h;
      }
    }
  }

  lemma LowerCharMeaning(c: char)
    ensures LowerChar(LowerChar(c)) == LowerChar(c)
    ensures !IsReplaced(c) ==> !IsReplaced(LowerChar(c))
    ensures IsLowerAlphaNumeric(c) ==> LowerChar(c) == c
  {
  }

  lemma LoweredMeaning(s: string)
    requires Trimmed(s) && Clean(s)
    ensures Trimmed(ToLower(s)) && Clean(ToLower(s)) && ToLower(ToLower(s)) == ToLower(s)
  {
    var r := ToLower(s);
    var q := ToLower(r);
    forall i | 0 <= i < |s| ensures !IsReplaced(r[i]) && q[i] == r[i] {
      LowerCharMeaning(s[i]);
    }
    LowerCharMeaning(s[0]);
    LowerCharMeaning(s[|s| - 1]);
  }

  lemma CleanMembers(s: string)
    ensures Clean(s) <==> forall c | c in s :: !IsReplaced(c)
  {
    forall i | 0 <= i < |s| ensures s[i] in s {}
  }

  lemma TrimmedImages(t: string)
    requires Trimmed(t)
    ensures Trimmed(Images(t)) && Clean(Images(t))
  {
    ImagesAreClean(t);
    CleanMembers(Images(t));
    ImagesTrimmed(t);
  }

  lemma SanitizeUnfolds(t: string, hash: string -> string)
    requires Clean(Shortened(Images(t), hash))
    ensures SanitizeToLength(t, DNS1123_LABEL_MAX_LENGTH, hash) == ToLower(Shortened(Images(t), hash))
  {
    var v := Images(t);
    ReplacementsAreImages(t);
    var shortened := Shortened(v, hash);
    assert shortened == if |v| > DNS1123_LABEL_MAX_LENGTH then v[..46] + "-" + hash(v) else v;
    CleanMembers(shortened);
    ReplaceNothing(shortened, '.', "-");
  }

  /** Sanitising a trimmed value, spelled out. */
  lemma SanitizeTrimmed(t: string, hash: string -> string)
    requires Trimmed(t) && IsHexHash(hash)
    ensures var r := SanitizeToLength(t, DNS1123_LABEL_MAX_LENGTH, hash);
            && r == ToLower(Shortened(Images(t), hash))
            && |r| <= DNS1123_LABEL_MAX_LENGTH && Trimmed(r) && Clean(r) && ToLower(r) == r
  {
    TrimmedImages(t);
    ShortenedMeaning(Images(t), hash);
    SanitizeUnfolds(t, hash);
    LoweredMeaning(Shortened(Images(t), hash));
  }

  lemma SanitizeEmpty(hash: string -> string)
    ensures SanitizeToLength("", DNS1123_LABEL_MAX_LENGTH, hash) == ""
  {
    ReplaceBadChar('a');
  }

  /** A clean, trimmed, short value is left alone. */
  lemma SanitizeClean(s: string, hash: string -> string)
    requires |s| <= DNS1123_LABEL_MAX_LENGTH
    requires Clean(s) && ToLower(s) == s
    ensures SanitizeToLength(s, DNS1123_LABEL_MAX_LENGTH, hash) == s
  {
    CleanMembers(s);
    ReplacementsAreImages(s);
    CleanImages(s);
    ReplaceNothing(s, '.', "-");
  }

  /** What sanitising does to a value that is already a result of sanitising. */
  lemma SanitizeStable(name: string, hash: string -> string)
    requires IsHexHash(hash)
    ensures var r := SanitizeToLength(EnsureAlphaNumericTrailingChars(name), DNS1123_LABEL_MAX_LENGTH, hash);
            SanitizeToLength(EnsureAlphaNumericTrailingChars(r), DNS1123_LABEL_MAX_LENGTH, hash) == r
  {
    var t := EnsureAlphaNumericTrailingChars(name);
    TrimMeaning(name);
    if t == "" {
      SanitizeEmpty(hash);
    } else {
      SanitizeTrimmed(t, hash);
      var r := SanitizeToLength(t, DNS1123_LABEL_MAX_LENGTH, hash);
      TrimIdempotent(r);
      SanitizeClean(r, hash);
    }
  }

  /** Both sanitisers are idempotent, whatever the hash function. */
  lemma SanitizersIdempotent(name: string, hash: string -> string)
    requires IsHexHash(hash)
    ensures var r := ValidateAndSanitizeResourceName(name, hash);
            ValidateAndSanitizeResourceName(r, hash) == r
    ensures var r := ValidateAndSanitizeNameToValidLabelValue(name, hash);
            ValidateAndSanitizeNameToValidLabelValue(r, hash) == r
  {
    SanitizeStable(name, hash);
  }

  lemma HashSuffix(v: string, hash: string -> string, i: nat)
    requires IsHexHash(hash) && |v| > DNS1123_LABEL_MAX_LENGTH && 46 <= i < |Shortened(v, hash)|
    ensures IsLabelChar(LowerChar(Shortened(v, hash)[i]))
  {
    var h := hash(v);
    if i > 46 {
      assert Shortened(v, hash)[i] == h[i - 47] && h[i - 47] in h;
    }
  }

  lemma RetainedReaches(t: string, r: string, kept: string, hash: string -> string)
    requires IsHexHash(hash)
    requires kept == (if |Images(t)| > DNS1123_LABEL_MAX_LENGTH then Images(t)[..46] else Images(t))
    requires r == ToLower(Shortened(Images(t), hash))
    ensures (forall i | 0 <= i < |r| :: IsLabelChar(r[i]))
            <==> forall c | c in kept :: IsAlphaNumeric(c) || c == '-'
  {
    var rest := r[|kept|..];
    forall i | 0 <= i < |kept| ensures IsLabelChar(r[i]) <==> IsAlphaNumeric(kept[i]) || kept[i] == '-' {
      assert r[i] == LowerChar(kept[i]);
    }
    forall i | |kept| <= i < |r| ensures IsLabelChar(r[i]) {
      HashSuffix(Images(t), hash, i);
    }
    forall i | 0 <= i < |kept| ensures kept[i] in kept {}
  }

  /** When a name had to be sanitised, the result is a DNS label exactly when the name has a lower-case
      letter or a digit and no other than letters, digits and dashes reach the result. */
  lemma SanitizedIsLabel(name: string, hash: string -> string)
    requires IsHexHash(hash) && !IsDns1123Subdomain(name)
    ensures IsDns1123Label(ValidateAndSanitizeResourceName(name, hash))
            <==> (exists c :: c in name && IsLowerAlphaNumeric(c))
                 && (forall c | c in Retained(name) :: IsAlphaNumeric(c) || c == '-')
  {
    var t, r := EnsureAlphaNumericTrailingChars(name), ValidateAndSanitizeResourceName(name, hash);
    TrimMeaning(name);
    if t == "" {
      SanitizeEmpty(hash);
    } else {
      SanitizeTrimmed(t, hash);
      RetainedReaches(t, r, Retained(name), hash);
      assert IsDns1123Label(r) <==> forall i | 0 <= i < |r| :: IsLabelChar(r[i]);
    }
  }

  /** Letters, digits, dashes and the characters the sanitiser replaces. */
  predicate Sanitizable(name: string) {
    forall c | c in name :: IsAlphaNumeric(c) || c == '-' || IsReplaced(c)
  }

  lemma LabelIsSubdomain(s: string)
    requires IsDns1123Label(s)
    ensures IsDns1123Subdomain(s)
  {
  }

  lemma RetainedIsPlain(name: string)
    requires Sanitizable(name)
    ensures forall c | c in Retained(name) :: IsAlphaNumeric(c) || c == '-'
  {
    var t := EnsureAlphaNumericTrailingChars(name);
    TrimMeaning(name);
    ImagesAreClean(t);
    forall c | c in Retained(name) ensures IsAlphaNumeric(c) || c == '-' {
      assert c in Images(t);
    }
  }

  /** The usual case: any such name with a lower-case letter or a digit becomes a subdomain, and unless
      it was one already a label. */
  lemma SanitizableBecomesLabel(name: string, hash: string -> string)
    requires IsHexHash(hash) && Sanitizable(name) && exists c :: c in name && IsLowerAlphaNumeric(c)
    ensures var r := ValidateAndSanitizeResourceName(name, hash);
            IsDns1123Subdomain(r) && (IsDns1123Subdomain(name) || IsDns1123Label(r))
  {
    if IsDns1123Subdomain(name) {
    } else {
      RetainedIsPlain(name);
      SanitizedIsLabel(name, hash);
      LabelIsSubdomain(ValidateAndSanitizeResourceName(name, hash));
    }
  }

  // ---------------------------------------------------------------- subdomains are labels between dots

  /** A label of any length. */
  predicate IsPart(p: string) {
    p != "" && IsLowerAlphaNumeric(p[0]) && IsLowerAlphaNumeric(p[|p| - 1]) && forall c | c in p :: IsLabelChar(c)
  }

  predicate IsDottedAt(s: string, i: nat)
    requires i < |s|
  {
    || IsLabelChar(s[i])
    || (s[i] == '.' && 0 < i < |s| - 1 && IsLowerAlphaNumeric(s[i - 1]) && IsLowerAlphaNumeric(s[i + 1]))
  }

  /** A subdomain of any length. */
  predicate IsDotted(s: string) {
    && s != "" && IsLowerAlphaNumeric(s[0]) && IsLowerAlphaNumeric(s[|s| - 1])
    && forall i | 0 <= i < |s| :: IsDottedAt(s, i)
  }

  lemma {:induction false} FirstDot(s: string) returns (p: string, rest: string)
    requires '.' in s
    ensures '.' !in p && s == p + (['.'] + rest)
  {
    if s[0] == '.' {
      p, rest := "", s[1..];
    } else {
      assert s == [s[0]] + s[1..];
      p, rest := FirstDot(s[1..]);
      p := [s[0]] + p;
    }
  }

  lemma DottedParts(p: string, rest: string, s: string)
    requires '.' !in p && s == p + (['.'] + rest)
    ensures IsDotted(s) ==> IsPart(p) && IsDotted(rest)
  {
    if IsDotted(s) {
      var n := |p|;
      assert s[n] == '.' && IsDottedAt(s, n);
      assert s[n - 1] == p[n - 1] && s[n + 1] == rest[0] && s[|s| - 1] == rest[|rest| - 1] && s[0] == p[0];
      forall c | c in p ensures IsLabelChar(c) {
        var i :| 0 <= i < n && p[i] == c;
        assert s[i] == c && IsDottedAt(s, i);
      }
      forall i | 0 <= i < |rest| ensures IsDottedAt(rest, i) {
        assert s[n + 1 + i] == rest[i] && IsDottedAt(s, n + 1 + i);
        assert i > 0 ==> s[n + i] == rest[i - 1];
        assert i < |rest| - 1 ==> s[n + 2 + i] == rest[i + 1];
      }
    }
  }

  lemma PartsDotted(p: string, rest: string, s: string)
    requires s == p + (['.'] + rest) && IsPart(p) && IsDotted(rest)
    ensures IsDotted(s)
  {
    var n := |p|;
    assert s[0] == p[0] && s[|s| - 1] == rest[|rest| - 1];
    forall i | 0 <= i < |s| ensures IsDottedAt(s, i) {
      if i < n {
        assert s[i] == p[i] && p[i] in p;
      } else if i == n {
        assert s[n] == '.' && s[n - 1] == p[n - 1] && s[n + 1] == rest[0];
      } else {
        var j := i - n - 1;
        assert s[i] == rest[j] && IsDottedAt(rest, j);
        assert j > 0 ==> s[i - 1] == rest[j - 1];
        assert j < |rest| - 1 ==> s[i + 1] == rest[j + 1];
      }
    }
  }

  lemma DotFree(s: string)
    requires '.' !in s
    ensures IsDotted(s) <==> IsPart(s)
  {
    if IsDotted(s) {
      forall c | c in s ensures IsLabelChar(c) {
        var i :| 0 <= i < |s| && s[i] == c;
        assert IsDottedAt(s, i);
      }
    }
    if IsPart(s) {
      forall i | 0 <= i < |s| ensures IsDottedAt(s, i) {
        assert s[i] in s;
      }
    }
  }

  lemma {:induction false} DottedExactlyWhen(s: string)
    ensures IsDotted(s) <==> forall p | p in Split(s, '.') :: IsPart(p)
    decreases |s|
  {
    if '.' in s {
      var p, rest := FirstDot(s);
      SplitFirst(p, rest, '.');
      DottedExactlyWhen(rest);
      DottedParts(p, rest, s);
      if IsPart(p) && IsDotted(rest) {
        PartsDotted(p, rest, s);
      }
      assert Split(s, '.') == [p] + Split(rest, '.');
      assert p in Split(s, '.');
    } else {
      SplitFirst(s, "", '.');
      DotFree(s);
      assert s in Split(s, '.');
    }
  }

  /** A subdomain consists of labels between dots, which may be longer than a label on its own. */
  lemma SubdomainExactlyWhen(s: string)
    ensures IsDns1123Subdomain(s) <==> |s| <= 253 && forall p | p in Split(s, '.') :: IsPart(p)
  {
    DottedExactlyWhen(s);
    if IsDns1123Subdomain(s) {
      forall i | 0 <= i < |s| ensures IsDottedAt(s, i) {}
    }
    if IsDotted(s) {
      forall i | 0 <= i < |s| ensures
        || IsLowerAlphaNumeric(s[i]) || s[i] == '-'
        || (s[i] == '.' && 0 < i < |s| - 1 && IsLowerAlphaNumeric(s[i - 1]) && IsLowerAlphaNumeric(s[i + 1]))
      {
        assert IsDottedAt(s, i);
      }
    }
  }

  /** What may stay as a label value: at most 63 letters, digits, dashes, underscores and dots, with a letter or digit,
      of either case, at both ends; or nothing. Everything else is sanitised. */
  lemma LabelValueMeaning(value: string, hash: string -> string)
    requires IsHexHash(hash)
    ensures (|value| <= 63 && forall i | 0 <= i < |value| ::
               || 'a' <= value[i] <= 'z' || 'A' <= value[i] <= 'Z' || '0' <= value[i] <= '9'
               || (0 < i < |value| - 1 && value[i] in "-_."))
            ==> ValidateAndSanitizeNameToValidLabelValue(value, hash) == value
    ensures !IsValidLabelValue(value) ==>
              var t := EnsureAlphaNumericTrailingChars(value);
              ValidateAndSanitizeNameToValidLabelValue(value, hash) ==
              if t == "" then "" else ToLower(Shortened(Images(t), hash))
  {
    if !IsValidLabelValue(value) {
      TrimMeaning(value);
      if EnsureAlphaNumericTrailingChars(value) == "" {
        SanitizeEmpty(hash);
      } else {
        SanitizeTrimmed(EnsureAlphaNumericTrailingChars(value), hash);
      }
    }
  }

  // ---------------------------------------------------------------- names that become one

  lemma LabelCharsAreClean(s: string)
    requires forall i | 0 <= i < |s| :: IsLabelChar(s[i])
    ensures Images(s) == s && ToLower(s) == s
  {
    forall c | c in s ensures !IsReplaced(c) {}
    CleanImages(s);
  }

  lemma UnderscoreImages(x: string, y: string)
    requires forall i | 0 <= i < |x| :: IsLabelChar(x[i])
    requires forall i | 0 <= i < |y| :: IsLabelChar(y[i])
    ensures Images(x + "_" + y) == x + "-" + y
  {
    LabelCharsAreClean(x);
    LabelCharsAreClean(y);
    ImagesConcat(x + "_", y);
    ImagesConcat(x, "_");
    assert "_"[1..] == "";
    assert Images("_") == "-";
  }

  lemma LabelParts(x: string, y: string)
    requires IsDns1123Label(x + "-" + y)
    ensures forall i | 0 <= i < |x| :: IsLabelChar(x[i])
    ensures forall i | 0 <= i < |y| :: IsLabelChar(y[i])
  {
    var s := x + "-" + y;
    forall i | 0 <= i < |x| ensures IsLabelChar(x[i]) {
      assert s[i] == x[i];
    }
    forall i | 0 <= i < |y| ensures IsLabelChar(y[i]) {
      assert s[|x| + 1 + i] == y[i];
    }
  }

  lemma SanitizeOther(name: string, hash: string -> string)
    requires IsHexHash(hash) && Trimmed(name) && !IsDns1123Subdomain(name)
    ensures ValidateAndSanitizeResourceName(name, hash) == ToLower(Shortened(Images(name), hash))
  {
    TrimIdempotent(name);
    SanitizeTrimmed(name, hash);
  }

  lemma UnderscoreIsSanitized(x: string, y: string)
    requires x != "" && y != "" && IsDns1123Label(x + "-" + y)
    ensures Trimmed(x + "_" + y) && !IsDns1123Subdomain(x + "_" + y)
  {
    var name, dashed := x + "_" + y, x + "-" + y;
    assert name[|x|] == '_';
    assert name[0] == dashed[0] && name[|name| - 1] == dashed[|dashed| - 1];
  }

  /** A name with an underscore in place of a dash is sanitised to the one with the dash, which stays. */
  lemma UnderscoreBecomesDash(x: string, y: string, hash: string -> string)
    requires IsHexHash(hash) && x != "" && y != "" && IsDns1123Label(x + "-" + y)
    ensures ValidateAndSanitizeResourceName(x + "_" + y, hash) == x + "-" + y
    ensures ValidateAndSanitizeResourceName(x + "-" + y, hash) == x + "-" + y
  {
    LabelParts(x, y);
    UnderscoreIsSanitized(x, y);
    SanitizeOther(x + "_" + y, hash);
    UnderscoreImages(x, y);
    LabelCharsAreClean(x + "-" + y);
    LabelIsSubdomain(x + "-" + y);
  }

  /** As label values both stay as they are. */
  lemma UnderscoreLabelStays(x: string, y: string, hash: string -> string)
    requires x != "" && y != "" && IsDns1123Label(x + "-" + y)
    ensures ValidateAndSanitizeNameToValidLabelValue(x + "_" + y, hash) == x + "_" + y
    ensures ValidateAndSanitizeNameToValidLabelValue(x + "-" + y, hash) == x + "-" + y
  {
    var name, dashed := x + "_" + y, x + "-" + y;
    forall i | 0 <= i < |name| ensures IsAlphaNumeric(name[i]) || name[i] in {'-', '_', '.'} {
      assert i != |x| ==> name[i] == dashed[i];
    }
    assert name[0] == dashed[0] && name[|name| - 1] == dashed[|dashed| - 1];
  }

  lemma UnderscoreIsNoDash(x: string, y: string)
    ensures x + "_" + y != x + "-" + y
  {
    assert (x + "_" + y)[|x|] == '_' && (x + "-" + y)[|x|] == '-';
  }

  /** Labels joined by a dash are a label if they are short enough together. */
  lemma LabelConcat(x: string, y: string)
    requires x != "" && y != "" && IsDns1123Label(x) && IsDns1123Label(y) && |x| + |y| < DNS1123_LABEL_MAX_LENGTH
    ensures IsDns1123Label(x + "-" + y)
  {
    var s := x + "-" + y;
    forall i | 0 <= i < |s| ensures IsLabelChar(s[i]) {
      assert s[i] == if i < |x| then x[i] else if i == |x| then '-' else y[i - |x| - 1];
    }
  }
}
