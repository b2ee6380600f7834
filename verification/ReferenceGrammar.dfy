/**
 The reference grammar of internal/images/validator.go in terms of characters: what a name, a path, a
 registry, a tag and a digest are, independently of the expression that matches them.
 */
module ReferenceGrammar {
  import opened Outcomes
  import opened ImageReference

  // ---- Characters ----

  predicate Small(c: char) { 'a' <= c <= 'z' || '0' <= c <= '9' }

  predicate Mark(c: char) { c == '.' || c == '_' || c == '-' }

  predicate Letter(c: char) { Small(c) || 'A' <= c <= 'Z' }

  // ---- Names ----

  // Name characters and single separators, the last a name character.
  predicate WellSpaced(s: string) {
    && (forall i :: 0 <= i < |s| ==> Small(s[i]) || Mark(s[i]))
    && (forall i :: 0 <= i < |s| - 1 && Mark(s[i]) ==> !Mark(s[i + 1]))
    && (s != "" ==> Small(s[|s| - 1]))
  }

  predicate IsName(s: string) { s != "" && Small(s[0]) && WellSpaced(s) }

  // How many name characters come first.
  function NamePrefix(s: string): (k: nat)
    ensures k <= |s| && (k < |s| ==> !Small(s[k]))
    ensures forall i :: 0 <= i < k ==> Small(s[i])
  {
    if s == "" || !Small(s[0]) then 0 else 1 + NamePrefix(s[1..])
  }

  lemma {:induction false} StarOfClass(p: char -> bool, s: string)
    ensures Matches(Star(Class(p)), s) <==> forall i :: 0 <= i < |s| ==> p(s[i])
    decreases |s|
  {
    if s != "" {
      if Matches(Star(Class(p)), s) {
        var k :| 0 < k <= |s| && Matches(Class(p), s[..k]) && Matches(Star(Class(p)), s[k..]);
        StarOfClass(p, s[1..]);
        assert s[..k][0] == s[0] && forall i :: 1 <= i < |s| ==> s[i] == s[1..][i - 1];
      }
      if forall i :: 0 <= i < |s| ==> p(s[i]) {
        StarOfClass(p, s[1..]);
        assert Matches(Class(p), s[..1]) && Matches(Star(Class(p)), s[1..]);
      }
    }
  }

  lemma FirstThen(p: char -> bool, r: Regex, s: string)
    ensures Matches(Cat(Class(p), r), s) <==> s != "" && p(s[0]) && Matches(r, s[1..])
  {
    if s != "" && p(s[0]) && Matches(r, s[1..]) {
      assert Matches(Class(p), s[..1]);
    }
  }

  lemma PlusOfClass(p: char -> bool, s: string)
    ensures Matches(Plus(Class(p)), s) <==> s != "" && forall i :: 0 <= i < |s| ==> p(s[i])
  {
    FirstThen(p, Star(Class(p)), s);
    if s != "" {
      StarOfClass(p, s[1..]);
      assert forall i :: 1 <= i < |s| ==> s[i] == s[1..][i - 1];
    }
  }

  lemma OptMatches(r: Regex, s: string)
    ensures Matches(Opt(r), s) <==> s == "" || Matches(r, s)
  {
  }

  lemma CatSplits(a: Regex, b: Regex, s: string) returns (k: nat)
    requires Matches(Cat(a, b), s)
    ensures k <= |s| && Matches(a, s[..k]) && Matches(b, s[k..])
  {
    k :| 0 <= k <= |s| && Matches(a, s[..k]) && Matches(b, s[k..]);
  }

  lemma CatJoins(a: Regex, b: Regex, s: string, k: nat)
    requires k <= |s| && Matches(a, s[..k]) && Matches(b, s[k..])
    ensures Matches(Cat(a, b), s)
  {
  }

  function SeparatedRun(): Regex { Cat(Class(IsSeparator), Plus(Class(IsNameChar))) }

  lemma RunMatches(s: string)
    ensures Matches(SeparatedRun(), s) <==>
      |s| >= 2 && Mark(s[0]) && forall i :: 1 <= i < |s| ==> Small(s[i])
  {
    FirstThen(IsSeparator, Plus(Class(IsNameChar)), s);
    if s != "" {
      PlusOfClass(IsNameChar, s[1..]);
      assert forall i :: 1 <= i < |s| ==> s[i] == s[1..][i - 1];
    }
  }

  predicate IsNameTail(t: string) { t == "" || (Mark(t[0]) && WellSpaced(t)) }

  lemma JoinRun(a: string, b: string)
    requires |a| >= 1 && (forall i :: 1 <= i < |a| ==> Small(a[i])) && Small(a[|a| - 1])
    requires Small(a[0]) || Mark(a[0])
    requires IsNameTail(b)
    ensures WellSpaced(a + b)
  {
  }

  lemma SplitRun(t: string)
    requires IsNameTail(t) && t != ""
    ensures var k := 1 + NamePrefix(t[1..]);
      2 <= k <= |t| && IsNameTail(t[k..]) && forall i :: 1 <= i < k ==> Small(t[i])
  {
    var u, k := t[1..], 1 + NamePrefix(t[1..]);
    assert |t| >= 2 && Small(t[1]) && u[0] == t[1];
    assert forall i :: 0 <= i < |u| ==> u[i] == t[i + 1];
    if k < |t| {
      assert t[k] == u[k - 1] && Mark(t[k]);
    }
  }

  lemma StarSplits(a: Regex, s: string) returns (k: nat)
    requires Matches(Star(a), s) && s != ""
    ensures 0 < k <= |s| && Matches(a, s[..k]) && Matches(Star(a), s[k..])
  {
    k :| 0 < k <= |s| && Matches(a, s[..k]) && Matches(Star(a), s[k..]);
  }

  lemma StarJoins(a: Regex, s: string, k: nat)
    requires 0 < k <= |s| && Matches(a, s[..k]) && Matches(Star(a), s[k..])
    ensures Matches(Star(a), s)
  {
  }

  lemma {:induction false} TailIsSpaced(t: string)
    requires Matches(Star(SeparatedRun()), t)
    ensures IsNameTail(t)
    decreases |t|
  {
    if t != "" {
      var k := StarSplits(SeparatedRun(), t);
      RunMatches(t[..k]);
      TailIsSpaced(t[k..]);
      JoinRun(t[..k], t[k..]);
      assert t == t[..k] + t[k..];
    }
  }

  lemma {:induction false} SpacedIsTail(t: string)
    requires IsNameTail(t)
    ensures Matches(Star(SeparatedRun()), t)
    decreases |t|
  {
    if t != "" {
      var k := 1 + NamePrefix(t[1..]);
      SplitRun(t);
      RunMatches(t[..k]);
      SpacedIsTail(t[k..]);
      StarJoins(SeparatedRun(), t, k);
    }
  }

  lemma TailMatches(t: string)
    ensures Matches(Star(SeparatedRun()), t) <==> IsNameTail(t)
  {
    if Matches(Star(SeparatedRun()), t) { TailIsSpaced(t); }
    if IsNameTail(t) { SpacedIsTail(t); }
  }

  lemma NameMatches(s: string)
    ensures Matches(NameComponent(), s) <==> IsName(s)
  {
    if Matches(NameComponent(), s) {
      var k := CatSplits(Plus(Class(IsNameChar)), Star(SeparatedRun()), s);
      PlusOfClass(IsNameChar, s[..k]);
      TailMatches(s[k..]);
      JoinRun(s[..k], s[k..]);
      assert s == s[..k] + s[k..];
    }
    if IsName(s) {
      var k := NamePrefix(s);
      PlusOfClass(IsNameChar, s[..k]);
      assert k < |s| ==> Mark(s[k]);
      TailMatches(s[k..]);
    }
  }

  // ---- Paths ----

  // The position of the first such character, or the length.
  function Find(s: string, c: char): (k: nat)
    ensures k <= |s| && (k < |s| ==> s[k] == c)
    ensures forall i :: 0 <= i < k ==> s[i] != c
  {
    if s == "" || s[0] == c then 0 else 1 + Find(s[1..], c)
  }

  lemma FindIs(s: string, c: char, k: nat)
    requires k <= |s| && (k < |s| ==> s[k] == c) && forall i :: 0 <= i < k ==> s[i] != c
    ensures Find(s, c) == k
  {
  }

  // Names, one slash between each and the next.
  predicate IsPath(s: string)
    decreases |s|
  {
    var k := Find(s, '/');
    IsName(s[..k]) && (k < |s| ==> IsPath(s[k + 1..]))
  }

  function SlashName(): Regex { Cat(One('/'), NameComponent()) }

  predicate IsPathTail(t: string) { t == "" || (t[0] == '/' && IsPath(t[1..])) }

  lemma SlashNameMatches(s: string)
    ensures Matches(SlashName(), s) <==> s != "" && s[0] == '/' && IsName(s[1..])
  {
    FirstThen(x => x == '/', NameComponent(), s);
    if s != "" { NameMatches(s[1..]); }
  }

  lemma NoSlashInName(a: string)
    requires IsName(a)
    ensures forall i :: 0 <= i < |a| ==> a[i] != '/'
  {
  }

  // A name before the rest of a path is found again.
  lemma NameThenTail(a: string, b: string)
    requires IsName(a) && IsPathTail(b)
    ensures IsPath(a + b)
  {
    var s := a + b;
    NoSlashInName(a);
    assert forall i :: 0 <= i < |a| ==> s[i] == a[i];
    FindIs(s, '/', |a|);
    assert s[..|a|] == a;
    assert b != "" ==> s[|a| + 1..] == b[1..];
  }

  lemma {:induction false} TailIsPath(t: string)
    requires Matches(Star(SlashName()), t)
    ensures IsPathTail(t)
    decreases |t|
  {
    if t != "" {
      var k := StarSplits(SlashName(), t);
      SlashNameMatches(t[..k]);
      TailIsPath(t[k..]);
      NameThenTail(t[..k][1..], t[k..]);
      assert t[1..] == t[..k][1..] + t[k..];
    }
  }

  lemma {:induction false} PathIsTail(t: string)
    requires IsPathTail(t)
    ensures Matches(Star(SlashName()), t)
    decreases |t|
  {
    if t != "" {
      var u := t[1..];
      var k := Find(u, '/');
      assert t[..k + 1][1..] == u[..k];
      SlashNameMatches(t[..k + 1]);
      assert t[k + 1..] == u[k..] && (k < |u| ==> u[k..][1..] == u[k + 1..]);
      PathIsTail(t[k + 1..]);
      StarJoins(SlashName(), t, k + 1);
    }
  }

  lemma PathTailMatches(t: string)
    ensures Matches(Star(SlashName()), t) <==> IsPathTail(t)
  {
    if Matches(Star(SlashName()), t) { TailIsPath(t); }
    if IsPathTail(t) { PathIsTail(t); }
  }

  lemma PathMatches(s: string)
    ensures Matches(Path(), s) <==> IsPath(s)
  {
    if Matches(Path(), s) {
      var k := CatSplits(NameComponent(), Star(SlashName()), s);
      NameMatches(s[..k]);
      PathTailMatches(s[k..]);
      NameThenTail(s[..k], s[k..]);
      assert s == s[..k] + s[k..];
    }
    if IsPath(s) {
      var k := Find(s, '/');
      NameMatches(s[..k]);
      assert k < |s| ==> s[k..][1..] == s[k + 1..];
      PathTailMatches(s[k..]);
    }
  }

  // ---- Registries, tags and digests ----

  predicate IsHost(s: string) {
    s != "" && Letter(s[0]) && forall i :: 1 <= i < |s| ==> Letter(s[i]) || s[i] == '-' || s[i] == '.'
  }

  predicate IsPort(s: string) { |s| >= 2 && s[0] == ':' && forall i :: 1 <= i < |s| ==> '0' <= s[i] <= '9' }

  // A host, and a port if there is a colon.
  predicate IsRegistry(s: string) {
    var k := Find(s, ':');
    IsHost(s[..k]) && (k < |s| ==> IsPort(s[k..]))
  }

  predicate IsTag(s: string) {
    && s != "" && Letter(s[0])
    && forall i :: 1 <= i < |s| ==> Letter(s[i]) || s[i] == '.' || s[i] == '_' || s[i] == '-'
  }

  lemma HostMatches(s: string)
    ensures Matches(Host(), s) <==> IsHost(s)
  {
    FirstThen(IsAlphaNumeric, Star(Class(IsHostChar)), s);
    if s != "" {
      StarOfClass(IsHostChar, s[1..]);
      assert forall i :: 1 <= i < |s| ==> s[i] == s[1..][i - 1];
    }
  }

  lemma TagMatches(s: string)
    ensures Matches(Tag(), s) <==> IsTag(s)
  {
    FirstThen(IsAlphaNumeric, Star(Class(IsTagChar)), s);
    if s != "" {
      StarOfClass(IsTagChar, s[1..]);
      assert forall i :: 1 <= i < |s| ==> s[i] == s[1..][i - 1];
    }
  }

  lemma PortMatches(s: string)
    ensures Matches(Port(), s) <==> IsPort(s)
  {
    FirstThen(x => x == ':', Plus(Class(IsDigit)), s);
    if s != "" {
      PlusOfClass(IsDigit, s[1..]);
      assert forall i :: 1 <= i < |s| ==> s[i] == s[1..][i - 1];
    }
  }

  lemma HostEnds(s: string, k: nat)
    requires k <= |s| && IsHost(s[..k]) && (k < |s| ==> s[k] == ':')
    ensures Find(s, ':') == k
  {
    assert forall i :: 0 <= i < k ==> s[i] == s[..k][i] && s[i] != ':';
    FindIs(s, ':', k);
  }

  lemma RegistryMatches(s: string)
    ensures Matches(Registry(), s) <==> IsRegistry(s)
  {
    if Matches(Registry(), s) {
      var k := CatSplits(Host(), Opt(Port()), s);
      HostMatches(s[..k]);
      OptMatches(Port(), s[k..]);
      PortMatches(s[k..]);
      assert k < |s| ==> s[k] == s[k..][0];
      HostEnds(s, k);
    }
    if IsRegistry(s) {
      var k := Find(s, ':');
      HostMatches(s[..k]);
      OptMatches(Port(), s[k..]);
      PortMatches(s[k..]);
      CatJoins(Host(), Opt(Port()), s, k);
    }
  }

  // A path, or a registry, a slash and a path.
  predicate IsRepository(s: string) {
    IsPath(s) || exists k :: 0 <= k < |s| && s[k] == '/' && IsRegistry(s[..k]) && IsPath(s[k + 1..])
  }

  lemma RegistrySlash(s: string, k: nat)
    requires k < |s|
    ensures Matches(RegistryPart(), s[..k + 1]) <==> s[k] == '/' && IsRegistry(s[..k])
  {
    var t := s[..k + 1];
    if Matches(RegistryPart(), t) {
      var j :| 0 <= j <= |t| && Matches(Registry(), t[..j]) && Matches(One('/'), t[j..]);
      assert j == k && t[j..][0] == s[k] && t[..j] == s[..k];
    }
    assert t[..k] == s[..k] && t[k..] == [s[k]];
    RegistryMatches(s[..k]);
  }

  function RegistryPart(): Regex { Cat(Registry(), One('/')) }

  lemma RepositoryOnly(s: string)
    requires Matches(Repository(), s)
    ensures IsRepository(s)
  {
    var k := CatSplits(Opt(RegistryPart()), Path(), s);
    OptMatches(RegistryPart(), s[..k]);
    PathMatches(s[k..]);
    if k == 0 {
      assert s[k..] == s;
    } else {
      RegistrySlash(s, k - 1);
    }
  }

  lemma PathIsRepository(s: string)
    requires IsPath(s)
    ensures Matches(Repository(), s)
  {
    PathMatches(s);
    assert s[..0] == "" && s[0..] == s;
    OptMatches(RegistryPart(), s[..0]);
    CatJoins(Opt(RegistryPart()), Path(), s, 0);
  }

  lemma RegistryIsRepository(s: string, k: nat)
    requires k < |s| && s[k] == '/' && IsRegistry(s[..k]) && IsPath(s[k + 1..])
    ensures Matches(Repository(), s)
  {
    RegistrySlash(s, k);
    PathMatches(s[k + 1..]);
    OptMatches(RegistryPart(), s[..k + 1]);
    CatJoins(Opt(RegistryPart()), Path(), s, k + 1);
  }

  lemma RepositoryMatches(s: string)
    ensures Matches(Repository(), s) <==> IsRepository(s)
  {
    if Matches(Repository(), s) { RepositoryOnly(s); }
    if IsPath(s) { PathIsRepository(s); }
    if k :| 0 <= k < |s| && s[k] == '/' && IsRegistry(s[..k]) && IsPath(s[k + 1..]) {
      RegistryIsRepository(s, k);
    }
  }

  predicate IsSha256(s: string) {
    |s| == 71 && s[..7] == "sha256:" && forall i :: 7 <= i < 71 ==> 'a' <= s[i] <= 'f' || '0' <= s[i] <= '9'
  }

  // Nothing, a tag, or a digest.
  predicate IsSuffix(s: string) {
    s == "" || (s[0] == ':' && IsTag(s[1..])) || (s[0] == '@' && IsSha256(s[1..]))
  }

  lemma {:induction false} RepOfClass(p: char -> bool, n: nat, s: string)
    ensures Matches(Rep(Class(p), n), s) <==> |s| == n && forall i :: 0 <= i < |s| ==> p(s[i])
    decreases n
  {
    if n > 0 {
      FirstThen(p, Rep(Class(p), n - 1), s);
      if s != "" {
        RepOfClass(p, n - 1, s[1..]);
        assert forall i :: 1 <= i < |s| ==> s[i] == s[1..][i - 1];
      }
    }
  }

  lemma HexMatches(s: string)
    requires |s| >= 7
    ensures Matches(Rep(Class(IsHex), 64), s[7..]) <==>
      |s| == 71 && forall i :: 7 <= i < 71 ==> 'a' <= s[i] <= 'f' || '0' <= s[i] <= '9'
  {
    RepOfClass(IsHex, 64, s[7..]);
    assert forall i :: 7 <= i < |s| ==> s[i] == s[7..][i - 7];
    assert forall i :: 0 <= i < |s| - 7 ==> s[7..][i] == s[i + 7];
  }

  lemma DigestIs(s: string)
    ensures Matches(Digest(SHA256), s) <==> IsSha256(s)
  {
    var w := "sha256:";
    if Matches(Digest(SHA256), s) {
      var k :| 0 <= k <= |s| && Matches(Word(w), s[..k]) && Matches(Rep(Class(IsHex), 64), s[k..]);
      WordMatches(w, s[..k]);
      HexMatches(s);
    }
    if IsSha256(s) {
      WordMatches(w, s[..7]);
      HexMatches(s);
    }
  }

  lemma SuffixMatches(s: string)
    ensures Matches(Suffix(SHA256), s) <==> IsSuffix(s)
  {
    FirstThen(x => x == ':', Tag(), s);
    FirstThen(x => x == '@', Digest(SHA256), s);
    if s != "" {
      TagMatches(s[1..]);
      DigestIs(s[1..]);
    }
  }

  // The expression matches exactly the repositories with nothing, a tag or a digest behind them.
  lemma GrammarIs(s: string)
    ensures InGrammar(SHA256, s) <==> exists k :: 0 <= k <= |s| && IsRepository(s[..k]) && IsSuffix(s[k..])
  {
    forall k | 0 <= k <= |s|
      ensures Matches(Repository(), s[..k]) <==> IsRepository(s[..k])
      ensures Matches(Suffix(SHA256), s[k..]) <==> IsSuffix(s[k..])
    {
      RepositoryMatches(s[..k]);
      SuffixMatches(s[k..]);
    }
    if k :| 0 <= k <= |s| && IsRepository(s[..k]) && IsSuffix(s[k..]) {
      assert Matches(Repository(), s[..k]) && Matches(Suffix(SHA256), s[k..]);
    }
  }

  // The same text in lower case.
  predicate LowerCased(low: string, image: string) {
    && |low| == |image|
    && forall i :: 0 <= i < |image| ==> low[i] as int == image[i] as int + if 'A' <= image[i] <= 'Z' then 32 else 0
  }

  // What validation accepts, in characters: 1 to 500 of them; in lower case, a repository with nothing, a
  // tag or a digest behind it; and no upper case after the first '@'.
  lemma AcceptedExactly(image: string, low: string)
    requires LowerCased(low, image)
    ensures FirstError(SHA256, image) == None <==>
      && 1 <= |image| <= 500
      && (exists k :: 0 <= k <= |low| && IsRepository(low[..k]) && IsSuffix(low[k..]))
      && (forall i, j :: 0 <= i < j < |image| && image[i] == '@' ==> !('A' <= image[j] <= 'Z'))
  {
    assert low == ToLower(image);
    Sha256IsPlain();
    ValidIffReference(SHA256, image);
    GrammarIs(low);
    if forall i, j :: 0 <= i < j < |image| && image[i] == '@' ==> !('A' <= image[j] <= 'Z') {
      assert NoUpperAfterAt(image);
    }
    if NoUpperAfterAt(image) {
      forall i, j | 0 <= i < j < |image| && image[i] == '@'
        ensures !('A' <= image[j] <= 'Z')
      {
        assert At(image) <= i && !IsUpper(image[j]);
      }
    }
  }

  // So a repository in lower case is accepted with a tag, with a digest and with neither.
  lemma AcceptedForms(name: string, rest: string)
    requires IsRepository(name) && IsSuffix(rest) && |name + rest| <= 500
    requires forall i :: 0 <= i < |name + rest| ==> !('A' <= (name + rest)[i] <= 'Z')
    ensures FirstError(SHA256, name + rest) == None
  {
    var s := name + rest;
    assert s[..|name|] == name && s[|name|..] == rest;
    AcceptedExactly(s, s);
  }
}
