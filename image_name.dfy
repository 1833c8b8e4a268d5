/** Image names: getRegistryAndName splits `[registry/]name[:tag][@digest]`
    into its parts, compileRegistryAndName prints parts back, and
    normaliseImageName chains the two so that every name carries a tag or a
    digest. The pattern the parser matches is a JavaScript regular expression
    without flags; MatchImage gives the groups its backtracking search
    settles on. */
module ImageName {
  import opened Base
  import opened Paths

  /** The parts of an image name; `None` is a part the name does not have. */
  datatype ImageNameParts = ImageNameParts(registry: Option<string>, imageName: string,
                                           tagName: Option<string>, digest: Option<string>)

  /** The characters a JavaScript `.` does not match. */
  predicate IsLineTerminator(c: char)
  {
    c == '\n' || c == '\r' || c == '\U{2028}' || c == '\U{2029}'
  }

  predicate NoLineTerminator(s: string)
  {
    forall i :: 0 <= i < |s| ==> !IsLineTerminator(s[i])
  }

  /** Index of the first `a` or `b` in `s` at or after `from`, or `|s|`. */
  function IndexOfEither(s: string, a: char, b: char, from: nat): (i: nat)
    requires from <= |s|
    ensures from <= i <= |s|
    ensures i < |s| ==> s[i] == a || s[i] == b
    ensures forall j :: from <= j < i ==> s[j] != a && s[j] != b
    decreases |s| - from
  {
    if from == |s| || s[from] == a || s[from] == b then from else IndexOfEither(s, a, b, from + 1)
  }

  /** The optional, lazily matched registry group, ended by a `/`: tried
      first as `localhost/`, then with the shortest text up to a `.` or `:`
      and on to the next `/`; either way some name must follow. The split
      leaves a non-empty rest of a non-empty text and lays the text out
      again. */
  function SplitRegistry(s: string): (r: (Option<string>, string))
    ensures |s| > 0 ==> |r.1| > 0
    ensures r.0.None? ==> r.1 == s
    ensures r.0.Some? ==> r.0.value + "/" + r.1 == s
  {
    if |s| > 10 && s[..10] == "localhost/" then
      assert s == s[..10] + s[10..];
      (Some("localhost"), s[10..])
    else
      var p := IndexOfEither(s, '.', ':', 0);
      if p == |s| then (None, s)
      else
        var q := IndexOfFrom(s, '/', p + 1);
        if q + 1 < |s| then
          assert s == s[..q] + [s[q]] + s[q + 1..];
          (Some(s[..q]), s[q + 1..])
        else (None, s)
  }

  /** The name, optional tag and optional digest groups, all lazy and
      anchored at the end, on what follows the registry: the shortest non-empty name up to a `:` or `@`, then a tag up to the next
      `@`, then the digest to the end. The name group is therefore the
      shortest non-empty one, with no `:` or `@` after its first character,
      and the tag group stops before any `@`. */
  function MatchTail(rest: string): (p: ImageNameParts)
    requires |rest| > 0
    ensures p.registry.None? && p.imageName != ""
    ensures forall i :: 1 <= i < |p.imageName| ==> p.imageName[i] != ':' && p.imageName[i] != '@'
    ensures p.tagName.Some? ==> '@' !in p.tagName.value
  {
    var n := IndexOfEither(rest, ':', '@', 1);
    if n == |rest| then ImageNameParts(None, rest, None, None)
    else if rest[n] == '@' then ImageNameParts(None, rest[..n], None, Some(rest[n + 1..]))
    else
      var m := IndexOfFrom(rest, '@', n + 1);
      if m == |rest| then ImageNameParts(None, rest[..n], Some(rest[n + 1..]), None)
      else ImageNameParts(None, rest[..n], Some(rest[n + 1..m]), Some(rest[m + 1..]))
  }

  /** The groups of the image-name pattern (an optional registry ended by
      `/`, a name, an optional `:tag`, an optional `@digest`, anchored at
      both ends) on `s`, or `None` when it does not match: the pattern needs at least one
      character for the name and `.` matches no line terminator. */
  function MatchImage(s: string): (r: Option<ImageNameParts>)
    ensures r.None? <==> |s| == 0 || !NoLineTerminator(s)
    ensures r.Some? ==> r.value.imageName != "" && r.value.registry == SplitRegistry(s).0
  {
    if |s| == 0 || !NoLineTerminator(s) then None
    else
      var (registry, rest) := SplitRegistry(s);
      Some(MatchTail(rest).(registry := registry))
  }

  /** The text of a set of groups, as the pattern lays them out. */
  function Render(p: ImageNameParts): string
  {
    (if p.registry.Some? then p.registry.value + "/" else "")
    + p.imageName
    + (if p.tagName.Some? then ":" + p.tagName.value else "")
    + (if p.digest.Some? then "@" + p.digest.value else "")
  }

  /** The pattern matches exactly the non-empty names without line
      terminators, and its groups lay the name out again. */
  lemma MatchImageRender(s: string)
    ensures MatchImage(s).None? <==> |s| == 0 || !NoLineTerminator(s)
    ensures MatchImage(s).Some? ==> Render(MatchImage(s).value) == s
  {
    if |s| > 0 && NoLineTerminator(s) {
      var (registry, rest) := SplitRegistry(s);
      MatchTailRender(rest);
      RenderWithRegistry(MatchTail(rest), registry);
    }
  }

  /** Setting the registry group puts `registry/` in front of the text. */
  lemma RenderWithRegistry(p: ImageNameParts, registry: Option<string>)
    requires p.registry.None?
    ensures Render(p.(registry := registry)) == (if registry.Some? then registry.value + "/" else "") + Render(p)
  {
    var tail := (if p.tagName.Some? then ":" + p.tagName.value else "")
              + (if p.digest.Some? then "@" + p.digest.value else "");
    assert Render(p) == p.imageName + tail;
    if registry.Some? {
      assert Render(p.(registry := registry)) == registry.value + "/" + p.imageName + tail;
    }
  }

  /** The groups the search settles on: a registry of `localhost` or one
      holding a `.` or `:` with no `/` after it, a non-empty image name with
      no `:` or `@` after its first character, a tag without `@`. */
  lemma MatchImageGroups(s: string)
    requires MatchImage(s).Some?
    ensures
      var p := MatchImage(s).value;
      && p.imageName != ""
      && (forall i :: 1 <= i < |p.imageName| ==> p.imageName[i] != ':' && p.imageName[i] != '@')
      && (p.tagName.Some? ==> '@' !in p.tagName.value)
      && (p.registry.Some? ==>
            || p.registry.value == "localhost"
            || (IndexOfEither(p.registry.value, '.', ':', 0) < |p.registry.value|
                && '/' !in p.registry.value[IndexOfEither(p.registry.value, '.', ':', 0)..]))
  {
    var (registry, rest) := SplitRegistry(s);
    if registry.Some? && registry.value != "localhost" {
      SplitRegistryMinimal(s);
    }
  }

  /** A registry found by the second alternative has its first `.` or `:`
      before the first `/` that follows it. */
  lemma SplitRegistryMinimal(s: string)
    requires SplitRegistry(s).0.Some? && SplitRegistry(s).0.value != "localhost"
    ensures
      var r := SplitRegistry(s).0.value;
      IndexOfEither(r, '.', ':', 0) < |r| && '/' !in r[IndexOfEither(r, '.', ':', 0)..]
  {
    var pe := IndexOfEither(s, '.', ':', 0);
    var q := IndexOfFrom(s, '/', pe + 1);
    var r := s[..q];
    assert SplitRegistry(s).0.value == r;
    assert forall j :: 0 <= j < q ==> r[j] == s[j];
    assert IndexOfEither(r, '.', ':', 0) == pe;
  }

  /** The name, tag and digest groups lay the rest out again. */
  lemma MatchTailRender(rest: string)
    requires |rest| > 0
    ensures Render(MatchTail(rest)) == rest
  {
    var n := IndexOfEither(rest, ':', '@', 1);
    if n == |rest| {
      assert Render(MatchTail(rest)) == rest;
    } else if rest[n] == '@' {
      RenderNameDigest(rest, n);
    } else {
      var m := IndexOfFrom(rest, '@', n + 1);
      if m == |rest| {
        RenderNameTag(rest, n);
      } else {
        RenderNameTagDigest(rest, n, m);
      }
    }
  }

  /** `name@digest` cut at the `@` lays out again. */
  lemma RenderNameDigest(rest: string, n: nat)
    requires n < |rest| && rest[n] == '@'
    ensures Render(ImageNameParts(None, rest[..n], None, Some(rest[n + 1..]))) == rest
  {
    assert rest == rest[..n] + [rest[n]] + rest[n + 1..];
  }

  /** `name:tag` cut at the `:` lays out again. */
  lemma RenderNameTag(rest: string, n: nat)
    requires n < |rest| && rest[n] == ':'
    ensures Render(ImageNameParts(None, rest[..n], Some(rest[n + 1..]), None)) == rest
  {
    assert rest == rest[..n] + [rest[n]] + rest[n + 1..];
  }

  /** `name:tag@digest` cut at the `:` and the `@` lays out again. */
  lemma RenderNameTagDigest(rest: string, n: nat, m: nat)
    requires n < m < |rest| && rest[n] == ':' && rest[m] == '@'
    ensures Render(ImageNameParts(None, rest[..n], Some(rest[n + 1..m]), Some(rest[m + 1..]))) == rest
  {
    assert rest[..m] == rest[..n] + [rest[n]] + rest[n + 1..m];
    assert rest == rest[..m] + [rest[m]] + rest[m + 1..];
  }

  predicate IsLetter(c: char)
  {
    'A' <= c <= 'Z' || 'a' <= c <= 'z'
  }

  predicate IsAlphanumeric(c: char)
  {
    IsLetter(c) || '0' <= c <= '9'
  }

  predicate IsSeparator(c: char)
  {
    c == '-' || c == '_' || c == '+' || c == '.'
  }

  /** `[0-9a-f-A-F]`: a hex digit of either case, or `-`. */
  predicate IsHexOrDash(c: char)
  {
    '0' <= c <= '9' || 'a' <= c <= 'f' || 'A' <= c <= 'F' || c == '-'
  }

  /** A digest algorithm: letters and digits in components that start with
      a letter, joined by single `-`, `_`, `+` or `.` separators. */
  predicate ValidAlgorithm(a: string)
  {
    && |a| > 0 && IsLetter(a[0])
    && (forall i :: 0 <= i < |a| ==> IsAlphanumeric(a[i]) || IsSeparator(a[i]))
    && (forall i :: 0 <= i < |a| && IsSeparator(a[i]) ==> i + 1 < |a| && IsLetter(a[i + 1]))
  }

  /** The digest pattern: an algorithm, `:`, and at least 32 hex digits or
      dashes. The algorithm holds no `:`, so the first `:` is the split; a
      valid digest has at least 34 characters. */
  predicate DigestValid(d: string)
    ensures DigestValid(d) ==> |d| >= 34 && ':' in d
  {
    var i := IndexOfFrom(d, ':', 0);
    && i < |d|
    && ValidAlgorithm(d[..i])
    && |d| - (i + 1) >= 32
    && forall j :: i < j < |d| ==> IsHexOrDash(d[j])
  }

  /** A valid algorithm and a long enough run of hex digits make a valid
      digest, and a valid digest is made of exactly those. */
  lemma DigestValidParts(algorithm: string, hex: string)
    ensures ValidAlgorithm(algorithm) && |hex| >= 32 && (forall j :: 0 <= j < |hex| ==> IsHexOrDash(hex[j]))
            ==> DigestValid(algorithm + ":" + hex)
    ensures ':' !in algorithm && DigestValid(algorithm + ":" + hex)
            ==> ValidAlgorithm(algorithm) && |hex| >= 32 && (forall j :: 0 <= j < |hex| ==> IsHexOrDash(hex[j]))
  {
    var d := algorithm + ":" + hex;
    if ':' !in algorithm {
      IndexOfFirst(algorithm, ':', hex);
      assert d[..|algorithm|] == algorithm;
      forall j | 0 <= j < |hex| ensures d[|algorithm| + 1 + j] == hex[j] { }
    }
  }

  /** getRegistryAndName: the groups of the pattern, with `latest` as the tag
      when neither a tag nor a digest is given; a name the pattern does not
      match, or a non-empty digest that is not valid, is an error. */
  function GetRegistryAndName(image: string): (r: Result<ImageNameParts>)
    ensures r.Err? <==> MatchImage(image).None?
                        || (MatchImage(image).value.digest.Some? && MatchImage(image).value.digest.value != ""
                            && !DigestValid(MatchImage(image).value.digest.value))
    ensures MatchImage(image).None? ==> r == Err(CouldNotParse(image))
    ensures r.Ok? ==> r.value.tagName.Some? || r.value.digest.Some?
    ensures r.Ok? ==> var m := MatchImage(image).value;
      r.value == m.(tagName := if m.tagName.None? && m.digest.None? then Some("latest") else m.tagName)
  {
    match MatchImage(image)
    case None => Err(CouldNotParse(image))
    case Some(m) =>
      MatchTailNameNonEmpty(image);
      var tagName := if m.digest.None? && m.tagName.None? then Some("latest") else m.tagName;
      if m.imageName == "" || (m.digest.Some? && m.digest.value != "" && !DigestValid(m.digest.value)) then
        Err(InvalidImageName)
      else
        Ok(ImageNameParts(m.registry, m.imageName, tagName, m.digest))
  }

  /** The image-name group is never empty. */
  lemma MatchTailNameNonEmpty(image: string)
    requires MatchImage(image).Some?
    ensures MatchImage(image).value.imageName != ""
  {
    MatchImageGroups(image);
  }

  /** The tag that is printed when there is no digest. */
  function TagOrLatest(tagName: Option<string>): (t: string)
    ensures t != ""
  {
    if tagName.None? || tagName.value == "" then "latest" else tagName.value
  }

  /** compileRegistryAndName: `registry/` when the registry is not empty,
      the name, then `@digest` when there is a digest and `:tag` (by default
      `latest`) otherwise. */
  function CompileRegistryAndName(p: ImageNameParts): (s: string)
    ensures s == Render(Canon(p))
  {
    var registry := if p.registry.Some? then p.registry.value else "";
    var prefix := if registry != "" then registry + "/" else "";
    prefix + (p.imageName + Suffix(p))
  }

  /** The parts as compileRegistryAndName prints them: an empty registry as
      none, the tag dropped when there is a digest and defaulted to `latest`
      when there is none. */
  function Canon(p: ImageNameParts): ImageNameParts
  {
    ImageNameParts(if p.registry == Some("") then None else p.registry, p.imageName,
                   if p.digest.Some? then None else Some(TagOrLatest(p.tagName)), p.digest)
  }

  /** normaliseImageName: parse, then print. */
  function NormaliseImageName(image: string): (r: Result<string>)
    ensures GetRegistryAndName(image).Err? ==> r == Err(GetRegistryAndName(image).error)
    ensures GetRegistryAndName(image).Ok? ==> r == Ok(Render(Canon(GetRegistryAndName(image).value)))
  {
    var parts :- GetRegistryAndName(image);
    Ok(CompileRegistryAndName(parts))
  }

  /** `name` holds no `/` after its first `.`. */
  predicate NoSlashAfterDot(name: string)
  {
    '/' !in name[IndexOfFrom(name, '.', 0)..]
  }

  /** A registry the pattern reads back whole: `localhost`, or one holding
      a `.` or `:` with no `/` after it, not starting with `localhost/`. */
  predicate RegistryWellFormed(r: string)
  {
    && NoLineTerminator(r)
    && (|| r == "localhost"
        || (&& IndexOfEither(r, '.', ':', 0) < |r|
            && '/' !in r[IndexOfEither(r, '.', ':', 0)..]
            && !("localhost/" <= r)))
  }

  /** Parts that print to a name which parses back to the same parts. */
  predicate WellFormed(p: ImageNameParts)
  {
    && p.imageName != "" && NoLineTerminator(p.imageName)
    && ':' !in p.imageName && '@' !in p.imageName
    && (p.registry.Some? && p.registry.value != "" ==> RegistryWellFormed(p.registry.value))
    && (p.registry.None? || p.registry.value == "" ==>
          !("localhost/" <= p.imageName) && NoSlashAfterDot(p.imageName))
    && (p.digest.None? && p.tagName.Some? ==>
          NoLineTerminator(p.tagName.value) && '@' !in p.tagName.value && '/' !in p.tagName.value)
    && (p.digest.Some? ==> p.digest.value == "" || DigestValid(p.digest.value))
  }

  /** A well-formed registry is read back whole by the registry group. */
  lemma SplitRegistryOfRegistry(r: string, tail: string)
    requires RegistryWellFormed(r) && |tail| > 0
    ensures SplitRegistry(r + "/" + tail) == (Some(r), tail)
  {
    var t := r + "/" + tail;
    assert t[..|r|] == r && t[|r|] == '/' && t[|r| + 1..] == tail;
    if r == "localhost" {
      assert t[..10] == "localhost/";
    } else {
      NotLocalhostPrefix(r, tail);
      SplitRegistryAfterDot(r, tail);
    }
  }

  /** A registry other than `localhost` that does not start with
      `localhost/` does not put `localhost/` in front of the text. */
  lemma NotLocalhostPrefix(r: string, tail: string)
    requires r != "localhost" && !("localhost/" <= r)
    ensures !(|r + "/" + tail| > 10 && (r + "/" + tail)[..10] == "localhost/")
  {
    var t := r + "/" + tail;
    if |r| >= 10 {
      assert t[..10] == r[..10];
    } else if |r| == 9 {
      assert t[..9] == r;
    } else {
      assert t[|r|] == '/' != "localhost/"[|r|];
    }
  }

  /** The second alternative of the registry group stops at the `/` after a
      registry whose first `.` or `:` has no `/` after it. */
  lemma SplitRegistryAfterDot(r: string, tail: string)
    requires IndexOfEither(r, '.', ':', 0) < |r| && '/' !in r[IndexOfEither(r, '.', ':', 0)..]
    ensures var t := r + "/" + tail;
      && IndexOfEither(t, '.', ':', 0) == IndexOfEither(r, '.', ':', 0)
      && IndexOfFrom(t, '/', IndexOfEither(r, '.', ':', 0) + 1) == |r|
  {
    var pe := IndexOfEither(r, '.', ':', 0);
    IndexOfEitherOfPrefix(r, "/", '.', ':', 0);
    IndexOfEitherOfPrefix(r + "/", tail, '.', ':', 0);
    NotInSuffix(r, pe, '/');
    IndexOfFromIs(r + "/", '/', pe + 1, |r|);
    IndexOfFromOfPrefix(r + "/", tail, '/', pe + 1);
  }

  /** Text added after a first `a` or `b` does not move it. */
  lemma {:induction false} IndexOfEitherOfPrefix(s: string, u: string, a: char, b: char, from: nat)
    requires from <= |s| && IndexOfEither(s, a, b, from) < |s|
    ensures IndexOfEither(s + u, a, b, from) == IndexOfEither(s, a, b, from)
    decreases |s| - from
  {
    assert (s + u)[from] == s[from];
    if s[from] != a && s[from] != b {
      IndexOfEitherOfPrefix(s, u, a, b, from + 1);
    }
  }

  /** Text added after a first `c` does not move it. */
  lemma {:induction false} IndexOfFromOfPrefix(s: string, u: string, c: char, from: nat)
    requires from <= |s| && IndexOfFrom(s, c, from) < |s|
    ensures IndexOfFrom(s + u, c, from) == IndexOfFrom(s, c, from)
    decreases |s| - from
  {
    assert (s + u)[from] == s[from];
    if s[from] != c {
      IndexOfFromOfPrefix(s, u, c, from + 1);
    }
  }

  /** The first `a` or `b` from `from` on is at `i` when `s[i]` is one, or
      `i` is the end, and none comes before it. */
  lemma IndexOfEitherIs(s: string, a: char, b: char, from: nat, i: nat)
    requires from <= i <= |s| && (i < |s| ==> s[i] == a || s[i] == b)
    requires forall j :: from <= j < i ==> s[j] != a && s[j] != b
    ensures IndexOfEither(s, a, b, from) == i
  {
  }

  /** The first `c` from `from` on is at `i` when `s[i]` is one, or `i` is the
      end, and none comes before it. */
  lemma IndexOfFromIs(s: string, c: char, from: nat, i: nat)
    requires from <= i <= |s| && (i < |s| ==> s[i] == c)
    requires forall j :: from <= j < i ==> s[j] != c
    ensures IndexOfFrom(s, c, from) == i
  {
  }

  /** A character missing from `s[k..]` is at no index from `k` on. */
  lemma NotInSuffix(s: string, k: nat, c: char)
    requires k <= |s| && c !in s[k..]
    ensures forall j :: k <= j < |s| ==> s[j] != c
  {
    forall j | k <= j < |s| ensures s[j] != c {
      assert s[j] == s[k..][j - k];
    }
  }

  /** With no registry, a name that holds no `/` after its first `.` and
      does not start with `localhost/`, followed by a `:` or `@` part free of
      `/`, leaves the registry group out. */
  lemma SplitRegistryOfName(name: string, suffix: string)
    requires name != "" && ':' !in name && '@' !in name
    requires !("localhost/" <= name) && NoSlashAfterDot(name)
    requires |suffix| > 0 && (suffix[0] == ':' || suffix[0] == '@') && '/' !in suffix
    ensures SplitRegistry(name + suffix) == (None, name + suffix)
  {
    var t := name + suffix;
    assert forall j :: 0 <= j < |name| ==> t[j] == name[j];
    assert forall j :: |name| <= j < |t| ==> t[j] == suffix[j - |name|];
    assert !(|t| > 10 && t[..10] == "localhost/") by {
      if |t| > 10 && |name| < 10 {
        assert t[|name|] != "localhost/"[|name|];
      }
    }
    var pe := IndexOfEither(t, '.', ':', 0);
    if pe < |t| {
      var dot := IndexOfFrom(name, '.', 0);
      assert forall j :: pe < j < |t| ==> t[j] != '/' by {
        forall j | pe < j < |t| ensures t[j] != '/' {
          if j < |name| {
            assert pe == dot;
            assert name[j] == name[dot..][j - dot];
          } else {
            assert suffix[j - |name|] in suffix;
          }
        }
      }
      assert IndexOfFrom(t, '/', pe + 1) == |t|;
    }
  }

  /** Text that starts with a name free of `:` and `@` has no such
      character before the name ends. */
  lemma NameHasNoSeparator(name: string, rest: string)
    requires ':' !in name && '@' !in name && name <= rest
    ensures forall j :: 0 <= j < |name| ==> rest[j] != ':' && rest[j] != '@'
  {
    forall j | 0 <= j < |name| ensures rest[j] != ':' && rest[j] != '@' {
      assert rest[j] == name[j] && name[j] in name;
    }
  }

  /** A name free of `:` and `@` followed by `:tag` reads back as that name
      and tag. */
  lemma MatchTailOfTag(name: string, tag: string)
    requires name != "" && ':' !in name && '@' !in name && '@' !in tag
    ensures MatchTail(name + (":" + tag)) == ImageNameParts(None, name, Some(tag), None)
  {
    var rest := name + (":" + tag);
    NameHasNoSeparator(name, rest);
    assert rest[|name|] == ':';
    assert forall j :: |name| < j < |rest| ==> rest[j] == tag[j - |name| - 1];
    assert IndexOfFrom(rest, '@', |name| + 1) == |rest|;
    assert rest[..|name|] == name && rest[|name| + 1..] == tag;
  }

  /** A name free of `:` and `@` followed by `@digest` reads back as that
      name and digest. */
  lemma MatchTailOfDigest(name: string, digest: string)
    requires name != "" && ':' !in name && '@' !in name
    ensures MatchTail(name + ("@" + digest)) == ImageNameParts(None, name, None, Some(digest))
  {
    var rest := name + ("@" + digest);
    NameHasNoSeparator(name, rest);
    assert rest[|name|] == '@';
    assert rest[..|name|] == name && rest[|name| + 1..] == digest;
  }

  /** A valid digest is made of letters, digits, separators, `:` and `-`. */
  lemma DigestValidCharacters(d: string)
    requires DigestValid(d)
    ensures NoLineTerminator(d) && '/' !in d && '@' !in d
  {
    var i := IndexOfFrom(d, ':', 0);
    forall j | 0 <= j < |d|
      ensures !IsLineTerminator(d[j]) && d[j] != '/' && d[j] != '@'
    {
      if j < i {
        assert d[j] == d[..i][j];
      }
    }
  }

  /** What compileRegistryAndName prints after the name. */
  function Suffix(p: ImageNameParts): string
  {
    if p.digest.None? then ":" + TagOrLatest(p.tagName) else "@" + p.digest.value
  }

  /** Joining texts without line terminators gives one without. */
  lemma NoLineTerminatorConcat(a: string, b: string)
    requires NoLineTerminator(a) && NoLineTerminator(b)
    ensures NoLineTerminator(a + b)
  {
    assert forall j :: |a| <= j < |a + b| ==> (a + b)[j] == b[j - |a|];
  }

  /** The printed tag holds no `@`, `/` or line terminator when the given
      tag holds none. */
  lemma TagOrLatestCharacters(tagName: Option<string>)
    requires tagName.Some? ==> NoLineTerminator(tagName.value) && '@' !in tagName.value && '/' !in tagName.value
    ensures NoLineTerminator(TagOrLatest(tagName)) && '@' !in TagOrLatest(tagName) && '/' !in TagOrLatest(tagName)
  {
  }

  /** The printed tag or digest holds no `/` and no line terminator. */
  lemma SuffixCharacters(p: ImageNameParts)
    requires WellFormed(p)
    ensures |Suffix(p)| > 0 && (Suffix(p)[0] == ':' || Suffix(p)[0] == '@')
    ensures '/' !in Suffix(p) && NoLineTerminator(Suffix(p))
  {
    if p.digest.None? {
      var tag := TagOrLatest(p.tagName);
      TagOrLatestCharacters(p.tagName);
      NoLineTerminatorConcat(":", tag);
    } else {
      var d := p.digest.value;
      if d != "" {
        DigestValidCharacters(d);
      }
      NoLineTerminatorConcat("@", d);
    }
  }

  /** The name followed by the printed tag or digest reads back as itself. */
  lemma SuffixReadsBack(p: ImageNameParts)
    requires p.imageName != "" && ':' !in p.imageName && '@' !in p.imageName
    requires p.digest.None? && p.tagName.Some? ==> '@' !in p.tagName.value
    ensures MatchTail(p.imageName + Suffix(p))
         == ImageNameParts(None, p.imageName, if p.digest.None? then Some(TagOrLatest(p.tagName)) else None, p.digest)
  {
    if p.digest.None? {
      var tag := TagOrLatest(p.tagName);
      assert '@' !in tag by {
        if tag == "latest" { assert forall j :: 0 <= j < |tag| ==> tag[j] != '@'; }
      }
      assert Suffix(p) == ":" + tag;
      MatchTailOfTag(p.imageName, tag);
    } else {
      assert Suffix(p) == "@" + p.digest.value;
      MatchTailOfDigest(p.imageName, p.digest.value);
    }
  }

  /** The printed text has no line terminator. */
  lemma CompiledHasNoLineTerminator(p: ImageNameParts)
    requires WellFormed(p)
    ensures NoLineTerminator(CompileRegistryAndName(p))
  {
    SuffixCharacters(p);
    var tail := p.imageName + Suffix(p);
    NoLineTerminatorConcat(p.imageName, Suffix(p));
    if p.registry.Some? && p.registry.value != "" {
      var r := p.registry.value;
      NoLineTerminatorConcat(r, "/");
      NoLineTerminatorConcat(r + "/", tail);
    } else {
      assert CompileRegistryAndName(p) == "" + tail;
    }
  }

  /** On a non-empty text without line terminators the pattern yields the
      registry split followed by the name, tag and digest groups. */
  lemma MatchImageOf(s: string)
    requires |s| > 0 && NoLineTerminator(s)
    ensures MatchImage(s) == Some(MatchTail(SplitRegistry(s).1).(registry := SplitRegistry(s).0))
  {
  }

  /** The printed text, with or without a registry, reads back through the
      pattern as the parts as printed. */
  lemma MatchCompiled(p: ImageNameParts)
    requires WellFormed(p)
    ensures MatchImage(CompileRegistryAndName(p)) == Some(Canon(p))
  {
    var t := CompileRegistryAndName(p);
    var tail := p.imageName + Suffix(p);
    SuffixCharacters(p);
    CompiledHasNoLineTerminator(p);
    SuffixReadsBack(p);
    MatchImageOf(t);
    if p.registry.Some? && p.registry.value != "" {
      SplitRegistryOfRegistry(p.registry.value, tail);
    } else {
      assert t == tail;
      SplitRegistryOfName(p.imageName, Suffix(p));
    }
  }

  /** Printing well-formed parts and parsing the result gives back the parts
      as printed: compileRegistryAndName and getRegistryAndName are inverse
      on well-formed names. */
  lemma ParseCompile(p: ImageNameParts)
    requires WellFormed(p)
    ensures GetRegistryAndName(CompileRegistryAndName(p)) == Ok(Canon(p))
  {
    MatchCompiled(p);
  }

  /** Normalising a well-formed name twice changes nothing more. */
  lemma NormaliseIdempotent(image: string)
    requires GetRegistryAndName(image).Ok? && WellFormed(GetRegistryAndName(image).value)
    ensures NormaliseImageName(image).Ok?
    ensures NormaliseImageName(NormaliseImageName(image).value) == NormaliseImageName(image)
  {
    var p := GetRegistryAndName(image).value;
    ParseCompile(p);
    assert CompileRegistryAndName(Canon(p)) == CompileRegistryAndName(p);
  }

  /** A bare name gets the `latest` tag. */
  lemma ParsesDefaultTag()
    ensures GetRegistryAndName("busybox") == Ok(ImageNameParts(None, "busybox", Some("latest"), None))
  {
    var s := "busybox";
    IndexOfEitherIs(s, '.', ':', 0, 7);
    IndexOfEitherIs(s, ':', '@', 1, 7);
  }

  /** A `.` with no `/` after it does not make a registry: `a.b:1` is the
      name `a.b` with tag `1`. */
  lemma ParsesNameWithDotAndTag()
    ensures GetRegistryAndName("a.b:1") == Ok(ImageNameParts(None, "a.b", Some("1"), None))
  {
    var s := "a.b:1";
    IndexOfEitherIs(s, '.', ':', 0, 1);
    IndexOfFromIs(s, '/', 2, 5);
    assert SplitRegistry(s) == (None, s);
    IndexOfEitherIs(s, ':', '@', 1, 3);
    IndexOfFromIs(s, '@', 4, 5);
    assert s[..3] == "a.b" && s[4..] == "1";
  }

  /** A non-empty digest group without a `:`, or with fewer than 32
      characters after its first `:`, makes the name invalid. */
  lemma RejectsShortDigest(s: string)
    requires MatchImage(s).Some? && MatchImage(s).value.digest.Some?
    requires var d := MatchImage(s).value.digest.value;
             d != "" && |d| - (IndexOfFrom(d, ':', 0) + 1) < 32
    ensures GetRegistryAndName(s) == Err(InvalidImageName)
  {
  }

  /** `a@b:0` is the name `a` with the digest `b:0`, which is too short. */
  lemma RejectsShortDigestExample()
    ensures GetRegistryAndName("a@b:0") == Err(InvalidImageName)
  {
    var s := "a@b:0";
    IndexOfEitherIs(s, '.', ':', 0, 3);
    IndexOfFromIs(s, '/', 4, 5);
    IndexOfEitherIs(s, ':', '@', 1, 1);
    assert s[..1] == "a" && s[2..] == "b:0";
    IndexOfFromIs("b:0", ':', 0, 1);
  }
}
