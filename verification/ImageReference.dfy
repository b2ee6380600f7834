/**
 Image reference validation (internal/images/validator.go): the hand-written checks, the reference
 grammar they guard, and why the checks accept exactly what the grammar accepts.
 */
module ImageReference {
  import opened Outcomes

  // ---- Regular expressions ----

  datatype Regex =
    | Eps
    | Class(chars: char -> bool)
    | Cat(left: Regex, right: Regex)
    | Alt(left: Regex, right: Regex)
    | Star(body: Regex)

  predicate Matches(r: Regex, s: string)
    decreases r, |s|
  {
    match r
    case Eps => s == ""
    case Class(chars) => |s| == 1 && chars(s[0])
    case Cat(a, b) => exists k :: 0 <= k <= |s| && Matches(a, s[..k]) && Matches(b, s[k..])
    case Alt(a, b) => Matches(a, s) || Matches(b, s)
    case Star(a) => s == "" || exists k :: 0 < k <= |s| && Matches(a, s[..k]) && Matches(r, s[k..])
  }

  function One(c: char): Regex { Class(x => x == c) }

  function Opt(r: Regex): Regex { Alt(Eps, r) }

  function Plus(r: Regex): Regex { Cat(r, Star(r)) }

  function Rep(r: Regex, n: nat): Regex { if n == 0 then Eps else Cat(r, Rep(r, n - 1)) }

  function Word(s: string): Regex { if s == "" then Eps else Cat(One(s[0]), Word(s[1..])) }

  // ---- What the strings of an expression can contain, start with and end with ----

  predicate Nullable(r: Regex) {
    match r
    case Eps => true
    case Class(chars) => false
    case Cat(a, b) => Nullable(a) && Nullable(b)
    case Alt(a, b) => Nullable(a) || Nullable(b)
    case Star(a) => true
  }

  predicate CanContain(r: Regex, c: char) {
    match r
    case Eps => false
    case Class(chars) => chars(c)
    case Cat(a, b) => CanContain(a, c) || CanContain(b, c)
    case Alt(a, b) => CanContain(a, c) || CanContain(b, c)
    case Star(a) => CanContain(a, c)
  }

  predicate CanStart(r: Regex, c: char) {
    match r
    case Eps => false
    case Class(chars) => chars(c)
    case Cat(a, b) => CanStart(a, c) || (Nullable(a) && CanStart(b, c))
    case Alt(a, b) => CanStart(a, c) || CanStart(b, c)
    case Star(a) => CanStart(a, c)
  }

  predicate CanEnd(r: Regex, c: char) {
    match r
    case Eps => false
    case Class(chars) => chars(c)
    case Cat(a, b) => CanEnd(b, c) || (Nullable(b) && CanEnd(a, c))
    case Alt(a, b) => CanEnd(a, c) || CanEnd(b, c)
    case Star(a) => CanEnd(a, c)
  }

  // The character may occur twice in a row.
  predicate CanDouble(r: Regex, c: char) {
    match r
    case Eps => false
    case Class(chars) => false
    case Cat(a, b) => CanDouble(a, c) || CanDouble(b, c) || (CanEnd(a, c) && CanStart(b, c))
    case Alt(a, b) => CanDouble(a, c) || CanDouble(b, c)
    case Star(a) => CanDouble(a, c) || (CanEnd(a, c) && CanStart(a, c))
  }

  predicate Doubled(s: string, c: char) { exists i :: 0 <= i < |s| - 1 && s[i] == c && s[i + 1] == c }

  lemma {:induction false} NullableSound(r: Regex)
    ensures Nullable(r) <==> Matches(r, "")
  {
    match r
    case Eps =>
    case Class(chars) =>
    case Cat(a, b) =>
      NullableSound(a);
      NullableSound(b);
      var s := "";
      assert s[..0] == "" && s[0..] == "";
    case Alt(a, b) =>
      NullableSound(a);
      NullableSound(b);
    case Star(a) =>
  }

  lemma {:induction false} ContainSound(r: Regex, s: string, c: char)
    requires Matches(r, s) && c in s
    ensures CanContain(r, c)
    decreases r, |s|
  {
    match r
    case Eps =>
    case Class(chars) =>
    case Cat(a, b) =>
      var k :| 0 <= k <= |s| && Matches(a, s[..k]) && Matches(b, s[k..]);
      assert s == s[..k] + s[k..];
      if c in s[..k] { ContainSound(a, s[..k], c); } else { ContainSound(b, s[k..], c); }
    case Alt(a, b) =>
      if Matches(a, s) { ContainSound(a, s, c); } else { ContainSound(b, s, c); }
    case Star(a) =>
      var k :| 0 < k <= |s| && Matches(a, s[..k]) && Matches(r, s[k..]);
      assert s == s[..k] + s[k..];
      if c in s[..k] { ContainSound(a, s[..k], c); } else { ContainSound(r, s[k..], c); }
  }

  lemma {:induction false} StartSound(r: Regex, s: string)
    requires Matches(r, s) && s != ""
    ensures CanStart(r, s[0])
    decreases r, |s|
  {
    match r
    case Eps =>
    case Class(chars) =>
    case Cat(a, b) =>
      var k :| 0 <= k <= |s| && Matches(a, s[..k]) && Matches(b, s[k..]);
      if k > 0 {
        StartSound(a, s[..k]);
      } else {
        NullableSound(a);
        assert s[..0] == "";
        StartSound(b, s[k..]);
      }
    case Alt(a, b) =>
      if Matches(a, s) { StartSound(a, s); } else { StartSound(b, s); }
    case Star(a) =>
      var k :| 0 < k <= |s| && Matches(a, s[..k]) && Matches(r, s[k..]);
      StartSound(a, s[..k]);
  }

  lemma {:induction false} EndSound(r: Regex, s: string)
    requires Matches(r, s) && s != ""
    ensures CanEnd(r, s[|s| - 1])
    decreases r, |s|
  {
    match r
    case Eps =>
    case Class(chars) =>
    case Cat(a, b) =>
      var k :| 0 <= k <= |s| && Matches(a, s[..k]) && Matches(b, s[k..]);
      if k < |s| {
        EndSound(b, s[k..]);
      } else {
        NullableSound(b);
        assert s[k..] == "";
        EndSound(a, s[..k]);
      }
    case Alt(a, b) =>
      if Matches(a, s) { EndSound(a, s); } else { EndSound(b, s); }
    case Star(a) =>
      var k :| 0 < k <= |s| && Matches(a, s[..k]) && Matches(r, s[k..]);
      if k < |s| { EndSound(r, s[k..]); } else { EndSound(a, s[..k]); }
  }

  lemma SplitDouble(s: string, k: nat, c: char)
    requires k <= |s| && Doubled(s, c)
    ensures Doubled(s[..k], c) || Doubled(s[k..], c) || (0 < k < |s| && s[k - 1] == c && s[k] == c)
  {
    var i :| 0 <= i < |s| - 1 && s[i] == c && s[i + 1] == c;
    if i + 1 < k {
      assert s[..k][i] == c && s[..k][i + 1] == c;
    } else if i >= k {
      assert s[k..][i - k] == c && s[k..][i - k + 1] == c;
    }
  }

  lemma {:induction false} DoubleSound(r: Regex, s: string, c: char)
    requires Matches(r, s) && Doubled(s, c)
    ensures CanDouble(r, c)
    decreases r, |s|
  {
    match r
    case Eps =>
    case Class(chars) =>
    case Cat(a, b) =>
      var k :| 0 <= k <= |s| && Matches(a, s[..k]) && Matches(b, s[k..]);
      SplitDouble(s, k, c);
      if Doubled(s[..k], c) { DoubleSound(a, s[..k], c); }
      else if Doubled(s[k..], c) { DoubleSound(b, s[k..], c); }
      else {
        EndSound(a, s[..k]);
        StartSound(b, s[k..]);
      }
    case Alt(a, b) =>
      if Matches(a, s) { DoubleSound(a, s, c); } else { DoubleSound(b, s, c); }
    case Star(a) =>
      var k :| 0 < k <= |s| && Matches(a, s[..k]) && Matches(r, s[k..]);
      SplitDouble(s, k, c);
      if Doubled(s[..k], c) { DoubleSound(a, s[..k], c); }
      else if Doubled(s[k..], c) { DoubleSound(r, s[k..], c); }
      else {
        EndSound(a, s[..k]);
        StartSound(r, s[k..]);
      }
  }

  lemma {:induction false} WordMatches(w: string, s: string)
    ensures Matches(Word(w), s) <==> s == w
  {
    if w != "" {
      if Matches(Word(w), s) {
        var k :| 0 <= k <= |s| && Matches(One(w[0]), s[..k]) && Matches(Word(w[1..]), s[k..]);
        WordMatches(w[1..], s[k..]);
        assert s == s[..k] + s[k..] && w == [w[0]] + w[1..];
      }
      if s == w {
        WordMatches(w[1..], s[1..]);
        assert Matches(One(w[0]), s[..1]);
      }
    }
  }

  lemma {:induction false} RepMatches(r: Regex, n: nat, s: string)
    requires forall t :: Matches(r, t) ==> |t| == 1
    requires Matches(Rep(r, n), s)
    ensures |s| == n && forall i :: 0 <= i < |s| ==> Matches(r, [s[i]])
  {
    if n > 0 {
      var k :| 0 <= k <= |s| && Matches(r, s[..k]) && Matches(Rep(r, n - 1), s[k..]);
      RepMatches(r, n - 1, s[k..]);
      assert k == 1 && s[..1] == [s[0]];
      assert forall i :: 1 <= i < |s| ==> s[i] == s[1..][i - 1];
    }
  }

  // ---- The reference grammar ----

  predicate IsLower(c: char) { 'a' <= c <= 'z' }

  predicate IsUpper(c: char) { 'A' <= c <= 'Z' }

  predicate IsDigit(c: char) { '0' <= c <= '9' }

  predicate IsHex(c: char) { 'a' <= c <= 'f' || IsDigit(c) }

  predicate IsNameChar(c: char) { IsLower(c) || IsDigit(c) }

  predicate IsSeparator(c: char) { c == '.' || c == '_' || c == '-' }

  predicate IsAlphaNumeric(c: char) { IsLower(c) || IsUpper(c) || IsDigit(c) }

  predicate IsHostChar(c: char) { IsAlphaNumeric(c) || c == '-' || c == '.' }

  predicate IsTagChar(c: char) { IsAlphaNumeric(c) || IsSeparator(c) }

  // [a-z0-9]+(?:[._-][a-z0-9]+)*
  function NameComponent(): Regex {
    Cat(Plus(Class(IsNameChar)), Star(Cat(Class(IsSeparator), Plus(Class(IsNameChar)))))
  }

  // [a-zA-Z0-9][-a-zA-Z0-9.]*
  function Host(): Regex { Cat(Class(IsAlphaNumeric), Star(Class(IsHostChar))) }

  // :[0-9]+
  function Port(): Regex { Cat(One(':'), Plus(Class(IsDigit))) }

  function Registry(): Regex { Cat(Host(), Opt(Port())) }

  // [a-zA-Z0-9][-a-zA-Z0-9._]*
  function Tag(): Regex { Cat(Class(IsAlphaNumeric), Star(Class(IsTagChar))) }

  // How digests are written: the algorithm with its colon, and the number of hex characters.
  datatype DigestForm = DigestForm(algorithm: string, length: nat)

  const SHA256: DigestForm := DigestForm("sha256:", 64)

  // The algorithm is made of name characters and single colons.
  predicate Plain(form: DigestForm) {
    && (forall i :: 0 <= i < |form.algorithm| ==> IsNameChar(form.algorithm[i]) || form.algorithm[i] == ':')
    && !Doubled(form.algorithm, ':')
  }

  // sha256:[a-f0-9]{64}
  function Digest(form: DigestForm): Regex { Cat(Word(form.algorithm), Rep(Class(IsHex), form.length)) }

  // name(?:/name)*
  function Path(): Regex { Cat(NameComponent(), Star(Cat(One('/'), NameComponent()))) }

  // (?:registry/)?path
  function Repository(): Regex {
    Cat(Opt(Cat(Registry(), One('/'))), Path())
  }

  // (?::tag|@digest)?
  function Suffix(form: DigestForm): Regex { Opt(Alt(Cat(One(':'), Tag()), Cat(One('@'), Digest(form)))) }

  function ImagePattern(form: DigestForm): Regex { Cat(Repository(), Suffix(form)) }

  // ---- ValidateFormat ----

  const MAX_IMAGE_LENGTH: nat := 500

  const INVALID_CHARACTERS: string := " !<>;\"'`$&|\\{}[]()"

  datatype FormatError =
    | EmptyImage
    | ImageTooLong
    | InvalidCharacters
    | LeadingSlash
    | TrailingSlash
    | DoubleSlash
    | MissingRepository
    | DoubleColon
    | WrongAlgorithm
    | WrongHashLength
    | NonHexCharacter
    | NotAReference

  predicate IsAscii(s: string) { forall i :: 0 <= i < |s| ==> s[i] < 128 as char }

  function LowerChar(c: char): char { if IsUpper(c) then (c as int + 32) as char else c }

  // strings.ToLower, on ASCII text
  function ToLower(s: string): (r: string)
    ensures |r| == |s|
    ensures forall i :: 0 <= i < |s| ==> r[i] == LowerChar(s[i])
  {
    seq(|s|, i requires 0 <= i < |s| => LowerChar(s[i]))
  }

  // The position of the first '@', or the length.
  function At(s: string): (i: nat)
    ensures i <= |s| && (i < |s| ==> s[i] == '@')
    ensures forall j :: 0 <= j < i ==> s[j] != '@'
  {
    if s == "" || s[0] == '@' then 0 else 1 + At(s[1..])
  }

  predicate HasInvalidCharacter(s: string) { exists i :: 0 <= i < |s| && s[i] in INVALID_CHARACTERS }

  predicate AllHex(s: string) { forall i :: 0 <= i < |s| ==> IsHex(s[i]) }

  // The error of the part after the '@', if any.
  function DigestError(form: DigestForm, s: string): Option<FormatError> {
    if !(form.algorithm <= s) then Some(WrongAlgorithm)
    else if |s| - |form.algorithm| != form.length then Some(WrongHashLength)
    else if !AllHex(s[|form.algorithm|..]) then Some(NonHexCharacter)
    else None
  }

  // The first check before the digest that fails.
  function ShapeError(image: string): Option<FormatError> {
    if image == "" then Some(EmptyImage)
    else if |image| > MAX_IMAGE_LENGTH then Some(ImageTooLong)
    else if HasInvalidCharacter(image) then Some(InvalidCharacters)
    else if image[0] == '/' then Some(LeadingSlash)
    else if image[|image| - 1] == '/' then Some(TrailingSlash)
    else if Doubled(image, '/') then Some(DoubleSlash)
    else if image[0] == ':' then Some(MissingRepository)
    else if Doubled(image, ':') then Some(DoubleColon)
    else None
  }

  // The check of the part after the first '@'.
  function PartError(form: DigestForm, image: string): Option<FormatError> {
    if At(image) < |image| then DigestError(form, image[At(image) + 1..]) else None
  }

  predicate InGrammar(form: DigestForm, s: string) { Matches(ImagePattern(form), s) }

  function FirstError(form: DigestForm, image: string): Option<FormatError> {
    if ShapeError(image).Some? then ShapeError(image)
    else if PartError(form, image).Some? then PartError(form, image)
    else if !InGrammar(form, ToLower(image)) then Some(NotAReference)
    else None
  }

  method ValidateDigest(form: DigestForm, digest: string) returns (error: Option<FormatError>)
    ensures error == DigestError(form, digest)
  {
    if !(form.algorithm <= digest) { return Some(WrongAlgorithm); }
    var hash := digest[|form.algorithm|..];
    if |hash| != form.length { return Some(WrongHashLength); }
    for i := 0 to |hash|
      invariant AllHex(hash[..i])
    {
      if !IsHex(hash[i]) { return Some(NonHexCharacter); }
    }
    assert hash[..|hash|] == hash;
    error := None;
  }

  // ---- The checks never reject what the grammar accepts ----

  lemma {:induction false} PartsAreContained(r: Regex, c: char)
    ensures CanStart(r, c) || CanEnd(r, c) || CanDouble(r, c) ==> CanContain(r, c)
  {
    match r
    case Eps =>
    case Class(chars) =>
    case Cat(a, b) =>
      PartsAreContained(a, c);
      PartsAreContained(b, c);
    case Alt(a, b) =>
      PartsAreContained(a, c);
      PartsAreContained(b, c);
    case Star(a) =>
      PartsAreContained(a, c);
  }

  lemma OneParts(x: char, c: char)
    ensures CanContain(One(x), c) == CanStart(One(x), c) == CanEnd(One(x), c) == (c == x)
    ensures !CanDouble(One(x), c) && !Nullable(One(x))
  {
    var r := One(x);
    assert r.Class? && r.chars(c) == (c == x);
  }

  lemma OptParts(r: Regex, c: char)
    ensures CanContain(Opt(r), c) == CanContain(r, c) && CanStart(Opt(r), c) == CanStart(r, c)
    ensures CanEnd(Opt(r), c) == CanEnd(r, c) && CanDouble(Opt(r), c) == CanDouble(r, c)
    ensures Nullable(Opt(r))
  {
  }

  lemma {:induction false} WordParts(w: string, c: char)
    ensures CanContain(Word(w), c) ==> c in w
    ensures CanStart(Word(w), c) ==> w != "" && w[0] == c
    ensures CanDouble(Word(w), c) ==> Doubled(w, c)
  {
    if w != "" {
      var rest := w[1..];
      WordParts(rest, c);
      OneParts(w[0], c);
      assert w == [w[0]] + rest;
      if Doubled(rest, c) {
        var i :| 0 <= i < |rest| - 1 && rest[i] == c && rest[i + 1] == c;
        assert w[i + 1] == c && w[i + 2] == c;
      }
      if rest != "" && w[0] == c && rest[0] == c {
        assert w[0] == c && w[0 + 1] == c;
      }
    }
  }

  lemma {:induction false} RepContains(r: Regex, n: nat, c: char)
    ensures CanContain(Rep(r, n), c) ==> CanContain(r, c)
  {
    if n > 0 {
      RepContains(r, n - 1, c);
    }
  }

  // Repetitions of one class of characters.
  lemma RepeatParts(chars: char -> bool, c: char)
    ensures CanContain(Class(chars), c) == CanContain(Star(Class(chars)), c) == chars(c)
    ensures CanContain(Plus(Class(chars)), c) == CanStart(Plus(Class(chars)), c) == chars(c)
    ensures !Nullable(Plus(Class(chars)))
  {
    assert CanContain(Class(chars), c) == chars(c);
    assert CanStart(Class(chars), c) == chars(c);
  }

  lemma NameParts(c: char)
    ensures CanContain(NameComponent(), c) ==> IsTagChar(c) && !IsUpper(c)
    ensures !Nullable(NameComponent())
  {
    RepeatParts(IsNameChar, c);
    RepeatParts(IsSeparator, c);
    var more := Cat(Class(IsSeparator), Plus(Class(IsNameChar)));
    assert CanContain(Star(more), c) == CanContain(more, c);
  }

  lemma TagParts(c: char)
    ensures CanContain(Tag(), c) ==> IsTagChar(c)
  {
    RepeatParts(IsAlphaNumeric, c);
    RepeatParts(IsTagChar, c);
  }

  lemma HostParts(c: char)
    ensures CanContain(Host(), c) ==> IsHostChar(c)
    ensures !Nullable(Host())
  {
    RepeatParts(IsAlphaNumeric, c);
    RepeatParts(IsHostChar, c);
  }

  lemma PortParts(c: char)
    ensures CanContain(Port(), c) ==> c == ':' || IsDigit(c)
    ensures !CanDouble(Port(), ':') && !CanEnd(Port(), ':')
  {
    OneParts(':', c);
    RepeatParts(IsDigit, c);
    RepeatParts(IsDigit, ':');
    PartsAreContained(Plus(Class(IsDigit)), ':');
  }

  // A registry may contain one ':', neither first nor last.
  lemma RegistryParts(c: char)
    ensures CanContain(Registry(), c) ==> IsHostChar(c) || c == ':'
    ensures !CanStart(Registry(), ':') && !CanEnd(Registry(), ':') && !CanDouble(Registry(), ':')
    ensures !Nullable(Registry())
  {
    HostParts(c);
    HostParts(':');
    PartsAreContained(Host(), ':');
    PortParts(c);
    OptParts(Port(), c);
    OptParts(Port(), ':');
  }

  lemma DigestParts(form: DigestForm, c: char)
    requires Plain(form)
    ensures CanContain(Digest(form), c) ==> IsNameChar(c) || c == ':'
    ensures !CanDouble(Digest(form), ':')
  {
    WordParts(form.algorithm, c);
    WordParts(form.algorithm, ':');
    RepContains(Class(IsHex), form.length, c);
    RepContains(Class(IsHex), form.length, ':');
    PartsAreContained(Rep(Class(IsHex), form.length), ':');
  }

  // A path of names: no ':' or '@', and '/' only between names.
  lemma PathParts(c: char)
    ensures CanContain(Path(), c) ==> c == '/' || (IsTagChar(c) && !IsUpper(c))
    ensures !CanStart(Path(), '/') && !CanEnd(Path(), '/') && !CanDouble(Path(), '/') && !Nullable(Path())
  {
    var more := Cat(One('/'), NameComponent());
    NameParts(c);
    NameParts('/');
    OneParts('/', c);
    OneParts('/', '/');
    PartsAreContained(NameComponent(), '/');
    assert CanContain(Star(more), c) == CanContain(more, c);
    assert !CanEnd(more, '/') && !CanDouble(more, '/');
    assert !CanEnd(Star(more), '/') && !CanDouble(Star(more), '/');
  }

  lemma RepositoryContains(c: char)
    ensures CanContain(Repository(), c) ==> c == '/' || c == ':' || IsTagChar(c)
  {
    var prefix := Cat(Registry(), One('/'));
    RegistryParts(c);
    OneParts('/', c);
    PathParts(c);
    OptParts(prefix, c);
    assert CanContain(Repository(), c) == (CanContain(Opt(prefix), c) || CanContain(Path(), c));
  }

  lemma PrefixParts()
    ensures var prefix := Cat(Registry(), One('/'));
      && !CanStart(prefix, '/') && !CanDouble(prefix, '/')
      && !CanStart(prefix, ':') && !CanDouble(prefix, ':') && !CanEnd(prefix, ':')
  {
    RegistryParts('/');
    RegistryParts(':');
    OneParts('/', '/');
    OneParts('/', ':');
    PartsAreContained(Registry(), '/');
  }

  lemma RepositoryEdges(c: char)
    requires c == '/' || c == ':'
    ensures !CanStart(Repository(), c) && !CanEnd(Repository(), c) && !CanDouble(Repository(), c)
    ensures !Nullable(Repository())
  {
    var prefix := Cat(Registry(), One('/'));
    PathParts(c);
    PartsAreContained(Path(), c);
    PrefixParts();
    OptParts(prefix, c);
  }

  lemma TaggedParts(c: char)
    ensures var tagged := Cat(One(':'), Tag());
      && (CanContain(tagged, c) ==> c == ':' || IsTagChar(c))
      && !CanDouble(tagged, ':')
  {
    TagParts(c);
    TagParts(':');
    OneParts(':', c);
    OneParts(':', ':');
    PartsAreContained(Tag(), ':');
  }

  lemma PinnedParts(form: DigestForm, c: char)
    requires Plain(form)
    ensures var pinned := Cat(One('@'), Digest(form));
      && (CanContain(pinned, c) ==> c == '@' || c == ':' || IsNameChar(c))
      && !CanDouble(pinned, ':')
  {
    DigestParts(form, c);
    OneParts('@', c);
    OneParts('@', ':');
  }

  lemma SuffixParts(form: DigestForm, c: char)
    requires Plain(form)
    ensures CanContain(Suffix(form), c) ==> c == ':' || c == '@' || IsTagChar(c)
    ensures !CanDouble(Suffix(form), ':')
  {
    TaggedParts(c);
    PinnedParts(form, c);
    OptParts(Alt(Cat(One(':'), Tag()), Cat(One('@'), Digest(form))), c);
    OptParts(Alt(Cat(One(':'), Tag()), Cat(One('@'), Digest(form))), ':');
  }

  lemma SuffixEdges(form: DigestForm, c: char)
    requires Plain(form)
    requires c == '/' || c == ':'
    ensures !CanDouble(Suffix(form), c)
    ensures c == '/' ==> !CanEnd(Suffix(form), c)
  {
    SuffixParts(form, c);
    PartsAreContained(Suffix(form), c);
  }

  // Everything a reference can be, in the terms of the hand-written checks.
  lemma PatternContains(form: DigestForm, c: char)
    requires Plain(form)
    ensures CanContain(ImagePattern(form), c) ==> c == '/' || c == ':' || c == '@' || IsTagChar(c)
  {
    RepositoryContains(c);
    SuffixParts(form, c);
  }

  lemma CatEdges(a: Regex, b: Regex, c: char)
    requires !CanStart(a, c) && !CanEnd(a, c) && !CanDouble(a, c) && !Nullable(a) && !CanDouble(b, c)
    ensures !CanStart(Cat(a, b), c) && !CanDouble(Cat(a, b), c) && !Nullable(Cat(a, b))
    ensures CanEnd(b, c) || !CanEnd(Cat(a, b), c)
  {
  }

  lemma PatternEdges(form: DigestForm, c: char)
    requires Plain(form)
    requires c == '/' || c == ':'
    ensures !CanStart(ImagePattern(form), c) && !CanDouble(ImagePattern(form), c) && !Nullable(ImagePattern(form))
    ensures c == '/' ==> !CanEnd(ImagePattern(form), c)
  {
    RepositoryEdges(c);
    SuffixEdges(form, c);
    CatEdges(Repository(), Suffix(form), c);
  }

  lemma InvalidNotAllowed(c: char)
    requires c in INVALID_CHARACTERS
    ensures !(c == '/' || c == ':' || c == '@' || IsTagChar(c))
  {
    var i :| 0 <= i < |INVALID_CHARACTERS| && INVALID_CHARACTERS[i] == c;
  }

  // A string of the grammar passes every check before the digest.
  lemma GrammarPassesShapeChecks(form: DigestForm, s: string)
    requires Plain(form)
    requires InGrammar(form, s)
    ensures s != "" && !HasInvalidCharacter(s)
    ensures s[0] != '/' && s[|s| - 1] != '/' && !Doubled(s, '/')
    ensures s[0] != ':' && !Doubled(s, ':')
  {
    PatternEdges(form, '/');
    PatternEdges(form, ':');
    NullableSound(ImagePattern(form));
    StartSound(ImagePattern(form), s);
    EndSound(ImagePattern(form), s);
    if Doubled(s, '/') { DoubleSound(ImagePattern(form), s, '/'); }
    if Doubled(s, ':') { DoubleSound(ImagePattern(form), s, ':'); }
    forall i | 0 <= i < |s|
      ensures s[i] !in INVALID_CHARACTERS
    {
      ContainSound(ImagePattern(form), s, s[i]);
      PatternContains(form, s[i]);
      if s[i] in INVALID_CHARACTERS { InvalidNotAllowed(s[i]); }
    }
  }

  lemma DigestMatches(form: DigestForm, s: string)
    requires Plain(form)
    requires Matches(Digest(form), s)
    ensures DigestError(form, s) == None
  {
    var k :| 0 <= k <= |s| && Matches(Word(form.algorithm), s[..k]) && Matches(Rep(Class(IsHex), form.length), s[k..]);
    WordMatches(form.algorithm, s[..k]);
    RepMatches(Class(IsHex), form.length, s[k..]);
    forall i | 0 <= i < |s[k..]|
      ensures IsHex(s[k..][i])
    {
      assert Matches(Class(IsHex), [s[k..][i]]);
    }
  }

  lemma PinnedDigest(form: DigestForm, t: string)
    requires Plain(form)
    requires Matches(Cat(One('@'), Digest(form)), t)
    ensures t != "" && t[0] == '@' && DigestError(form, t[1..]) == None
  {
    var j :| 0 <= j <= |t| && Matches(One('@'), t[..j]) && Matches(Digest(form), t[j..]);
    DigestMatches(form, t[j..]);
  }

  lemma TaggedHasNoAt(t: string)
    requires Matches(Cat(One(':'), Tag()), t)
    ensures '@' !in t
  {
    if '@' in t {
      ContainSound(Cat(One(':'), Tag()), t, '@');
      TaggedParts('@');
    }
  }

  lemma SuffixCases(form: DigestForm, t: string)
    requires Matches(Suffix(form), t)
    ensures t == "" || Matches(Cat(One(':'), Tag()), t) || Matches(Cat(One('@'), Digest(form)), t)
  {
    var tagged, pinned := Cat(One(':'), Tag()), Cat(One('@'), Digest(form));
    assert t == "" || Matches(Alt(tagged, pinned), t);
  }

  lemma SuffixWithAt(form: DigestForm, t: string)
    requires Plain(form)
    requires Matches(Suffix(form), t) && '@' in t
    ensures t[0] == '@' && DigestError(form, t[1..]) == None
  {
    SuffixCases(form, t);
    if Matches(Cat(One('@'), Digest(form)), t) { PinnedDigest(form, t); } else { TaggedHasNoAt(t); }
  }

  lemma RepositoryHasNoAt(s: string)
    requires Matches(Repository(), s)
    ensures '@' !in s
  {
    if '@' in s {
      ContainSound(Repository(), s, '@');
      RepositoryContains('@');
    }
  }

  // The only '@' of a reference stands before its digest.
  lemma GrammarPassesDigestCheck(form: DigestForm, s: string)
    requires Plain(form)
    requires InGrammar(form, s) && At(s) < |s|
    ensures DigestError(form, s[At(s) + 1..]) == None
  {
    var k :| 0 <= k <= |s| && Matches(Repository(), s[..k]) && Matches(Suffix(form), s[k..]);
    RepositoryHasNoAt(s[..k]);
    AtBeyond(s, k);
    SuffixWithAt(form, s[k..]);
    assert s[k..][1..] == s[At(s) + 1..];
  }

  lemma AtBeyond(s: string, k: nat)
    requires k <= |s| && '@' !in s[..k] && At(s) < |s|
    ensures k <= At(s) && '@' in s[k..]
    ensures s[k..][0] == '@' ==> At(s) == k
  {
    forall j | 0 <= j < k
      ensures s[j] != '@'
    {
      assert s[..k][j] in s[..k];
    }
    assert s[k..][At(s) - k] == '@';
  }

  // ---- Lower-casing ----

  predicate NoUpperAfterAt(s: string) { forall i :: At(s) < i < |s| ==> !IsUpper(s[i]) }

  lemma {:induction false} LowerKeepsAt(s: string)
    ensures At(ToLower(s)) == At(s)
  {
  }

  lemma LowerKeepsShape(s: string, c: char)
    requires c == '/' || c == ':'
    ensures HasInvalidCharacter(s) ==> HasInvalidCharacter(ToLower(s))
    ensures Doubled(s, c) ==> Doubled(ToLower(s), c)
    ensures s != "" && s[0] == c ==> ToLower(s)[0] == c
    ensures s != "" && s[|s| - 1] == c ==> ToLower(s)[|s| - 1] == c
  {
    if HasInvalidCharacter(s) {
      var i :| 0 <= i < |s| && s[i] in INVALID_CHARACTERS;
      InvalidNotAllowed(s[i]);
      assert ToLower(s)[i] in INVALID_CHARACTERS;
    }
    if Doubled(s, c) {
      var i :| 0 <= i < |s| - 1 && s[i] == c && s[i + 1] == c;
      assert ToLower(s)[i] == c && ToLower(s)[i + 1] == c;
    }
  }

  lemma NoUpperInDigest(form: DigestForm, digest: string, i: nat)
    requires Plain(form)
    requires DigestError(form, digest) == None && i < |digest|
    ensures !IsUpper(digest[i])
  {
    if i < |form.algorithm| {
      assert digest[i] == form.algorithm[i];
    } else {
      assert digest[|form.algorithm|..][i - |form.algorithm|] == digest[i];
    }
  }

  lemma ReferenceHasShape(form: DigestForm, image: string)
    requires Plain(form)
    requires 1 <= |image| <= MAX_IMAGE_LENGTH && InGrammar(form, ToLower(image))
    ensures ShapeError(image) == None
  {
    GrammarPassesShapeChecks(form, ToLower(image));
    LowerKeepsShape(image, '/');
    LowerKeepsShape(image, ':');
  }

  lemma ReferenceHasDigest(form: DigestForm, image: string)
    requires Plain(form)
    requires InGrammar(form, ToLower(image)) && NoUpperAfterAt(image)
    ensures PartError(form, image) == None
  {
    var low, at := ToLower(image), At(image);
    LowerKeepsAt(image);
    if at < |image| {
      GrammarPassesDigestCheck(form, low);
      assert image[at + 1..] == low[at + 1..];
    }
  }

  lemma PassedHasNoUpper(form: DigestForm, image: string)
    requires Plain(form)
    requires PartError(form, image) == None
    ensures NoUpperAfterAt(image)
  {
    var at := At(image);
    forall i | at < i < |image|
      ensures !IsUpper(image[i])
    {
      assert image[at + 1..][i - at - 1] == image[i];
      NoUpperInDigest(form, image[at + 1..], i - at - 1);
    }
  }

  // 1 to 500 characters, in the grammar once lower-cased, and with no upper case after the '@'.
  predicate IsReference(form: DigestForm, image: string) {
    1 <= |image| <= MAX_IMAGE_LENGTH && InGrammar(form, ToLower(image)) && NoUpperAfterAt(image)
  }

  lemma Sha256IsPlain()
    ensures Plain(SHA256)
  {
  }

  // Validation succeeds exactly on the references: the hand-written checks add nothing else.
  lemma ValidIffReference(form: DigestForm, image: string)
    requires Plain(form)
    ensures FirstError(form, image) == None <==> IsReference(form, image)
  {
    if IsReference(form, image) {
      ReferenceHasShape(form, image);
      ReferenceHasDigest(form, image);
    }
    if FirstError(form, image) == None {
      PassedHasNoUpper(form, image);
    }
  }

  predicate OfShape(e: FormatError) {
    e != WrongAlgorithm && e != WrongHashLength && e != NonHexCharacter && e != NotAReference
  }

  lemma ShapeReports(image: string, e: FormatError)
    requires OfShape(e)
    ensures FirstError(SHA256, image) == Some(e) <==> ShapeError(image) == Some(e)
  {
  }

  // Which error is reported, in characters: that of the first check that fails.
  lemma ErrorsOfLength(image: string)
    ensures FirstError(SHA256, image) == Some(EmptyImage) <==> image == ""
    ensures FirstError(SHA256, image) == Some(ImageTooLong) <==> |image| > 500
    ensures FirstError(SHA256, image) == Some(InvalidCharacters) <==>
      1 <= |image| <= 500 && exists i :: 0 <= i < |image| && image[i] in " !<>;\"'`$&|\\{}[]()"
  {
    ShapeReports(image, EmptyImage);
    ShapeReports(image, ImageTooLong);
    ShapeReports(image, InvalidCharacters);
  }

  lemma ErrorsInOrder(image: string)
    requires 1 <= |image| <= 500 && forall i :: 0 <= i < |image| ==> image[i] !in " !<>;\"'`$&|\\{}[]()"
    ensures FirstError(SHA256, image) == Some(LeadingSlash) <==> image[0] == '/'
    ensures FirstError(SHA256, image) == Some(TrailingSlash) <==> image[0] != '/' && image[|image| - 1] == '/'
    ensures FirstError(SHA256, image) == Some(DoubleSlash) <==>
      image[0] != '/' && image[|image| - 1] != '/' && exists i :: 0 <= i < |image| - 1 && image[i] == '/' && image[i + 1] == '/'
  {
    assert !HasInvalidCharacter(image);
    ShapeReports(image, LeadingSlash);
    ShapeReports(image, TrailingSlash);
    ShapeReports(image, DoubleSlash);
  }

  lemma ColonErrors(image: string)
    requires 1 <= |image| <= 500 && forall i :: 0 <= i < |image| ==> image[i] !in " !<>;\"'`$&|\\{}[]()"
    requires image[0] != '/' && image[|image| - 1] != '/' && !Doubled(image, '/')
    ensures FirstError(SHA256, image) == Some(MissingRepository) <==> image[0] == ':'
    ensures FirstError(SHA256, image) == Some(DoubleColon) <==>
      image[0] != ':' && exists i :: 0 <= i < |image| - 1 && image[i] == ':' && image[i + 1] == ':'
  {
    assert !HasInvalidCharacter(image);
    ShapeReports(image, MissingRepository);
    ShapeReports(image, DoubleColon);
  }

  // A part that does not begin with the algorithm, is not 71 characters long, or is not in hex.
  lemma DigestErrors(image: string)
    ensures FirstError(SHA256, image) == Some(WrongAlgorithm) ==>
      exists i :: 0 <= i < |image| && image[i] == '@' && !("sha256:" <= image[i + 1..])
    ensures FirstError(SHA256, image) == Some(WrongHashLength) ==>
      exists i :: 0 <= i < |image| && image[i] == '@' && |image| - i != 72
    ensures FirstError(SHA256, image) == Some(NonHexCharacter) ==>
      exists i :: 0 <= i < |image| && !('a' <= image[i] <= 'f' || '0' <= image[i] <= '9')
  {
    var at := At(image);
    if at < |image| {
      assert image[at] == '@';
      if FirstError(SHA256, image) == Some(NonHexCharacter) {
        var part := image[at + 1..];
        var i :| 0 <= i < |part[7..]| && !IsHex(part[7..][i]);
        assert image[at + 8 + i] == part[7..][i];
      }
    }
  }

  // The checks before the digest, in order.
  method CheckShape(image: string) returns (error: Option<FormatError>)
    ensures error == ShapeError(image)
  {
    if image == "" { return Some(EmptyImage); }
    if |image| > MAX_IMAGE_LENGTH { return Some(ImageTooLong); }
    if HasInvalidCharacter(image) { return Some(InvalidCharacters); }
    if image[0] == '/' { return Some(LeadingSlash); }
    if image[|image| - 1] == '/' { return Some(TrailingSlash); }
    if Doubled(image, '/') { return Some(DoubleSlash); }
    if image[0] == ':' { return Some(MissingRepository); }
    if Doubled(image, ':') { return Some(DoubleColon); }
    error := None;
  }

  method ValidateFormat(image: string) returns (error: Option<FormatError>)
    ensures error == FirstError(SHA256, image)
    ensures IsAscii(image) ==> (error == None <==> IsReference(SHA256, image))
  {
    Sha256IsPlain();
    ValidIffReference(SHA256, image);
    error := CheckShape(image);
    if error.Some? { return; }
    var at := At(image);
    if at < |image| {
      error := ValidateDigest(SHA256, image[at + 1..]);
      if error.Some? { return; }
    }
    if !InGrammar(SHA256, ToLower(image)) { return Some(NotAReference); }
    error := None;
  }
}
