/** Container image references: parsing, the resolved form, and the resolver's canonical form. */
module ImageRefs {
  import opened Wrappers
  import opened Text

  datatype Ref = Ref(original: string, registry: string, repository: string, tag: string, digest: string,
                     resolved: string)

  const DOCKER_HUB: string := "docker.io"

  const LIBRARY: string := "library/"

  const LATEST_TAG: string := "latest"

  predicate IsRegistryHost(value: string) {
    '.' in value || ':' in value || value == "localhost"
  }

  /** The text before the first separator, and the text after it (empty if there is none). */
  function Cut(s: string, sep: char): (string, string) {
    var i := IndexOf(s, sep);
    if i == -1 then (s, "") else (s[..i], s[i + 1..])
  }

  /** Registry, repository and tag as written. */
  function Locate(imagePart: string): (string, string, string) {
    if '/' !in imagePart then
      var (repository, tag) := Cut(imagePart, ':');
      (DOCKER_HUB, LIBRARY + repository, tag)
    else
      var (head, rest) := Cut(imagePart, '/');
      if IsRegistryHost(head) then
        var (repository, tag) := Cut(rest, ':');
        (head, repository, tag)
      else
        var (repository, tag) := Cut(imagePart, ':');
        (DOCKER_HUB, repository, tag)
  }

  function TagOf(written: string, digest: string): string {
    if written != "" then written else if digest == "" then LATEST_TAG else ""
  }

  function BuildResolved(imagePart: string, tag: string, digest: string): string {
    if digest != "" then imagePart + "@" + digest
    else if tag == LATEST_TAG && ':' !in imagePart then imagePart + ":latest"
    else imagePart
  }

  function ParseRef(s: string): Ref {
    var (imagePart, digest) := Cut(s, '@');
    var (registry, repository, written) := Locate(imagePart);
    var tag := TagOf(written, digest);
    Ref(s, registry, repository, tag, digest, BuildResolved(imagePart, tag, digest))
  }

  /** Parse, with its error for the empty reference. */
  function TryParse(s: string): Option<Ref> {
    if s == "" then None else Some(ParseRef(s))
  }

  /** The reference Resolve returns; `lookup` is the registry's answer for a tag. */
  function Resolve(r: Ref, lookup: Option<string>): Option<Ref> {
    if r.digest != "" then Some(r)
    else
      match lookup
      case None => None
      case Some(digest) => Some(r.(digest := digest, resolved := r.registry + "/" + r.repository + "@" + digest))
  }

  /** A reference with a digest is resolved already; one without gets the digest found, or none at all. */
  lemma ResolveKeeps(r: Ref, lookup: Option<string>)
    ensures r.digest != "" ==> Resolve(r, lookup) == Some(r)
    ensures r.digest == "" ==> (Resolve(r, lookup) == None <==> lookup == None)
    ensures r.digest == "" && lookup.Some? ==>
              var q := Resolve(r, lookup).value;
              q.digest == lookup.value && q.registry == r.registry && q.repository == r.repository && q.tag == r.tag
              && q.original == r.original
  {
  }

  /** The mutable reference that the parsing helpers fill in. */
  class ImageRef {
    var original: string
    var registry: string
    var repository: string
    var tag: string
    var digest: string
    var resolved: string

    function View(): Ref
      reads this
    {
      Ref(original, registry, repository, tag, digest, resolved)
    }

    /** Parse: no reference for the empty text. */
    static method Parse(s: string) returns (ref: Option<ImageRef>)
      ensures ref.None? <==> TryParse(s) == None
      ensures ref.Some? ==> fresh(ref.value) && Some(ref.value.View()) == TryParse(s)
    {
      if s == "" {
        return None;
      }
      var r := new ImageRef.Of(s);
      return Some(r);
    }

    constructor Of(s: string)
      ensures View() == ParseRef(s)
    {
      original := s;
      registry, repository, tag, digest, resolved := "", "", "", "", "";
      new;
      var imagePart := SplitDigest(s);
      ApplyRegistryAndRepository(imagePart);
      resolved := BuildResolved(imagePart, tag, digest);
    }

    method SplitDigest(s: string) returns (imagePart: string)
      modifies this
      ensures imagePart == Cut(s, '@').0
      ensures View() == old(View()).(digest := if '@' in s then Cut(s, '@').1 else old(digest))
    {
      imagePart := s;
      var i := IndexOf(s, '@');
      if i > -1 {
        imagePart := s[..i];
        digest := s[i + 1..];
      }
    }

    method ApplyRegistryAndRepository(imagePart: string)
      modifies this
      requires tag == ""
      ensures var (reg, repo, written) := Locate(imagePart);
              View() == old(View()).(registry := reg, repository := repo, tag := TagOf(written, old(digest)))
    {
      var slash := IndexOf(imagePart, '/');
      if slash == -1 {
        registry := DOCKER_HUB;
        var (repo, written) := Cut(imagePart, ':');
        repository := LIBRARY + repo;
        AssignDefaultTagIfNeeded(written);
        return;
      }
      var before, after := imagePart[..slash], imagePart[slash + 1..];
      if IsRegistryHost(before) {
        registry := before;
        var (repo, written) := Cut(after, ':');
        repository := repo;
        AssignDefaultTagIfNeeded(written);
        return;
      }
      registry := DOCKER_HUB;
      var (repo, written) := Cut(imagePart, ':');
      repository := repo;
      AssignDefaultTagIfNeeded(written);
    }

    method AssignDefaultTagIfNeeded(written: string)
      modifies this`tag
      requires tag == ""
      ensures tag == TagOf(written, digest)
    {
      if written != "" {
        tag := written;
        return;
      }
      if digest == "" {
        tag := LATEST_TAG;
      }
    }
  }

  // --- lemmas about cutting ---

  lemma CutJoin(a: string, sep: char, b: string)
    requires sep !in a
    ensures Cut(a + [sep] + b, sep) == (a, b)
  {
    IndexOfJoin(a, sep, b);
    assert Join(a, sep, b)[..|a|] == a && Join(a, sep, b)[|a| + 1..] == b;
  }

  lemma CutParts(s: string, sep: char)
    ensures var (a, b) := Cut(s, sep);
            && sep !in a
            && (sep in s ==> s == a + [sep] + b)
            && (sep !in s ==> a == s && b == "")
            && (forall c :: c in a ==> c in s)
  {
    var i := IndexOf(s, sep);
    if i >= 0 {
      assert s == s[..i] + [s[i]] + s[i + 1..];
      assert forall c :: c in s[..i] ==> c in s;
    }
  }

  /** Appending text without the separator goes to the second half. */
  lemma CutAppend(s: string, sep: char, t: string)
    requires sep in s
    ensures Cut(s + t, sep) == (Cut(s, sep).0, Cut(s, sep).1 + t)
  {
    CutParts(s, sep);
    var (a, b) := Cut(s, sep);
    assert s + t == a + [sep] + (b + t);
    CutJoin(a, sep, b + t);
  }

  lemma LatestText()
    ensures ":latest" == [':'] + LATEST_TAG
    ensures '@' !in LATEST_TAG && '/' !in LATEST_TAG && ':' !in LATEST_TAG
  {
  }

  // --- references put together from their parts ---

  function Suffix(sep: char, text: string): string {
    if text == "" then "" else [sep] + text
  }

  /** The image part of a reference; a registry may be left out. */
  function ImagePart(host: Option<string>, repository: string, tag: string): string {
    var named := repository + Suffix(':', tag);
    if host == None then named else host.value + ['/'] + named
  }

  function Written(host: Option<string>, repository: string, tag: string, digest: string): string {
    ImagePart(host, repository, tag) + Suffix('@', digest)
  }

  /** No separator where it would be taken for another's, and nothing like a registry where none is meant. */
  predicate Writable(host: Option<string>, repository: string, tag: string) {
    && ':' !in repository && '@' !in repository && '/' !in tag && '@' !in tag
    && (host.Some? ==> IsRegistryHost(host.value) && '/' !in host.value && '@' !in host.value)
    && (host == None && '/' in repository ==> !IsRegistryHost(Cut(repository, '/').0))
  }

  lemma CutNothing(a: string, sep: char)
    requires sep !in a
    ensures Cut(a, sep) == (a, "") && a + "" == a
  {
    CutParts(a, sep);
  }

  lemma CutSuffix(a: string, sep: char, b: string)
    requires sep !in a
    ensures Cut(a + Suffix(sep, b), sep) == (a, b)
  {
    if b == "" {
      CutNothing(a, sep);
    } else {
      CutJoin(a, sep, b);
      assert a + ([sep] + b) == a + [sep] + b;
    }
  }

  lemma LocateParts(host: Option<string>, repository: string, tag: string)
    requires Writable(host, repository, tag)
    ensures Locate(ImagePart(host, repository, tag)) ==
            (if host == None then DOCKER_HUB else host.value,
             if host == None && '/' !in repository then LIBRARY + repository else repository, tag)
  {
    CutSuffix(repository, ':', tag);
    var named := repository + Suffix(':', tag);
    if host.Some? {
      CutJoin(host.value, '/', named);
    } else if '/' in repository {
      CutAppend(repository, '/', Suffix(':', tag));
    }
  }

  lemma ImagePartPlain(host: Option<string>, repository: string, tag: string)
    requires Writable(host, repository, tag)
    ensures '@' !in ImagePart(host, repository, tag)
    ensures ':' in ImagePart(host, repository, tag) <==> tag != "" || (host.Some? && ':' in host.value)
  {
    var named := repository + Suffix(':', tag);
    assert tag != "" ==> named[|repository|] == ':';
    assert ':' in named <==> tag != "";
    assert host.Some? ==> forall c :: c in host.value + ['/'] + named <==> c in host.value || c == '/' || c in named;
  }

  function ResolvedText(host: Option<string>, text: string, tag: string, digest: string): string {
    if tag == "" && digest == "" && (host == None || ':' !in host.value) then text + ":latest" else text
  }

  lemma ResolvedParts(host: Option<string>, repository: string, tag: string, digest: string)
    requires Writable(host, repository, tag)
    ensures BuildResolved(ImagePart(host, repository, tag), TagOf(tag, digest), digest)
         == ResolvedText(host, Written(host, repository, tag, digest), tag, digest)
  {
    var image := ImagePart(host, repository, tag);
    ImagePartPlain(host, repository, tag);
    if digest == "" {
      assert image + "" == image;
    } else {
      assert image + "@" + digest == image + (['@'] + digest);
    }
  }

  lemma WrittenParses(text: string, image: string, digest: string)
    requires Cut(text, '@') == (image, digest)
    ensures var (registry, repository, written) := Locate(image);
            var tag := TagOf(written, digest);
            ParseRef(text) == Ref(text, registry, repository, tag, digest, BuildResolved(image, tag, digest))
  {
  }

  /**
   A reference put together from its parts parses into them.  Without a registry it is Docker
   Hub's, and a repository without a slash then lies in the library.  Without a tag it is the
   latest, unless there is a digest; a tag beside a digest is kept.  The resolved form writes the
   default tag out, except after a registry with a port.
   */
  lemma PartsParse(host: Option<string>, repository: string, tag: string, digest: string)
    requires Writable(host, repository, tag)
    ensures var text := Written(host, repository, tag, digest);
            ParseRef(text) ==
            Ref(text, if host == None then "docker.io" else host.value,
                if host == None && '/' !in repository then "library/" + repository else repository,
                if tag == "" && digest == "" then "latest" else tag, digest, ResolvedText(host, text, tag, digest))
  {
    var image := ImagePart(host, repository, tag);
    ImagePartPlain(host, repository, tag);
    CutSuffix(image, '@', digest);
    LocateParts(host, repository, tag);
    ResolvedParts(host, repository, tag, digest);
    WrittenParses(Written(host, repository, tag, digest), image, digest);
  }

  /** What names a registry: a domain, a port, or localhost; any other first component belongs to the repository. */
  lemma RegistriesNamed(a: string, b: string)
    ensures IsRegistryHost(Join(a, '.', b)) && IsRegistryHost(Join(a, ':', b)) && IsRegistryHost("localhost")
    ensures '.' !in a && ':' !in a && a != "localhost" ==> !IsRegistryHost(a)
  {
    assert Join(a, '.', b)[|a|] == '.' && Join(a, ':', b)[|a|] == ':';
  }

  // --- the fixpoint ---

  ghost predicate SameReference(a: Ref, b: Ref) {
    a == b.(original := a.original)
  }

  lemma CutLatest(p: string)
    requires ':' !in p
    ensures Cut(p + ":latest", ':') == (p, LATEST_TAG) && Cut(p, ':') == (p, "")
  {
    assert p + ":latest" == p + [':'] + LATEST_TAG;
    CutJoin(p, ':', LATEST_TAG);
    CutParts(p, ':');
  }

  lemma SlashBefore(p: string)
    requires ':' !in p
    ensures '/' in p + ":latest" <==> '/' in p
    ensures '/' in p ==> ':' !in Cut(p, '/').1 && Cut(p + ":latest", '/') == (Cut(p, '/').0, Cut(p, '/').1 + ":latest")
  {
    LatestText();
    CutParts(p, '/');
    if '/' in p {
      CutAppend(p, '/', ":latest");
    }
  }

  /** Writing the default tag out leaves registry and repository as they were. */
  lemma LocateWithLatest(p: string)
    requires ':' !in p
    ensures Locate(p + ":latest") == (Locate(p).0, Locate(p).1, LATEST_TAG) && Locate(p).2 == ""
  {
    CutLatest(p);
    SlashBefore(p);
    if '/' in p {
      CutLatest(Cut(p, '/').1);
    }
  }

  /** Every text but the empty one parses, and parsing its resolved form gives the same reference again. */
  lemma ParseResolved(s: string)
    ensures TryParse(s) == None <==> s == ""
    ensures TryParse(s).Some? ==>
              var r, again := TryParse(s).value, TryParse(TryParse(s).value.resolved);
              again.Some? && SameReference(again.value, r)
  {
    if s != "" {
      ResolvedAgain(s);
    }
  }

  lemma ResolvedAgain(s: string)
    requires s != ""
    ensures var r := ParseRef(s);
            r.resolved != "" && SameReference(ParseRef(r.resolved), r)
  {
    var (p, d) := Cut(s, '@');
    CutParts(s, '@');
    var r := ParseRef(s);
    if d != "" {
      assert r.resolved == p + ['@'] + d;
      CutJoin(p, '@', d);
    } else if r.tag == LATEST_TAG && ':' !in p {
      LatestText();
      LocateWithLatest(p);
      var q := p + ":latest";
      assert '@' !in q && ':' in q;
      CutParts(q, '@');
    } else {
      CutParts(p, '@');
      assert p != "" by {
        assert p == "" ==> ':' !in p && Locate(p).2 == "";
      }
    }
  }

  // --- the canonical form ---

  lemma DockerHubIsHost()
    ensures IsRegistryHost(DOCKER_HUB) && '/' !in DOCKER_HUB && '@' !in DOCKER_HUB
  {
    assert DOCKER_HUB[6] == '.';
  }

  lemma LibraryPlain(repository: string)
    requires ':' !in repository && '@' !in repository
    ensures ':' !in LIBRARY + repository && '@' !in LIBRARY + repository
  {
    assert ':' !in LIBRARY && '@' !in LIBRARY;
  }

  /** A cut at ':' of text without '@' leaves a repository with neither. */
  lemma RepositoryPlain(value: string)
    requires '@' !in value
    ensures ':' !in Cut(value, ':').0 && '@' !in Cut(value, ':').0
  {
    CutParts(value, ':');
  }

  /** What Locate yields can be put back together. */
  lemma LocatedParts(p: string)
    requires '@' !in p
    ensures var (registry, repository, written) := Locate(p);
            && IsRegistryHost(registry) && '/' !in registry && '@' !in registry
            && ':' !in repository && '@' !in repository
  {
    DockerHubIsHost();
    RepositoryPlain(p);
    if '/' !in p {
      LibraryPlain(Cut(p, ':').0);
    } else {
      CutParts(p, '/');
      var (head, rest) := Cut(p, '/');
      assert '@' !in rest by {
        assert forall i :: 0 <= i < |rest| ==> p[|head| + 1 + i] == rest[i];
      }
      RepositoryPlain(rest);
    }
  }

  /** The resolver's registry/repository@digest parses back to exactly those three. */
  lemma ResolvedParsesBack(s: string, digest: string)
    requires s != "" && ParseRef(s).digest == "" && digest != ""
    ensures var r := Resolve(ParseRef(s), Some(digest)).value;
            var back := ParseRef(r.resolved);
            && back.registry == r.registry && back.repository == r.repository && back.digest == digest
            && back.resolved == r.resolved && back.tag == ""
  {
    var (p, _) := Cut(s, '@');
    CutParts(s, '@');
    LocatedParts(p);
    var registry, repository := ParseRef(s).registry, ParseRef(s).repository;
    var image := registry + ['/'] + repository;
    assert registry + "/" + repository + "@" + digest == image + ['@'] + digest;
    CutJoin(image, '@', digest);
    CutJoin(registry, '/', repository);
    assert '/' in image;
    CutParts(repository, ':');
  }
}
