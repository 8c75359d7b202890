/** Parsing image references, and when printing a parsed reference loses nothing. */
module ImageRefs {

  // ---------------------------------------------------------------------------------------
  // strings.Split and strings.Join for a one-character separator

  function Split(s: string, sep: char): (parts: seq<string>)
    ensures |parts| >= 1
  {
    if s == "" then [""] else
    var rest := Split(s[1..], sep);
    if s[0] == sep then [""] + rest else [[s[0]] + rest[0]] + rest[1..]
  }

  function Join(parts: seq<string>, sep: char): string {
    if parts == [] then "" else if |parts| == 1 then parts[0] else parts[0] + [sep] + Join(parts[1..], sep)
  }

  function Occurrences(s: string, c: char): nat {
    if s == "" then 0 else (if s[0] == c then 1 else 0) + Occurrences(s[1..], c)
  }

  lemma {:induction false} OccurrencesAppend(a: string, b: string, c: char)
    ensures Occurrences(a + b, c) == Occurrences(a, c) + Occurrences(b, c)
  {
    if a == "" {
      assert a + b == b;
    } else {
      OccurrencesAppend(a[1..], b, c);
      assert (a + b)[1..] == a[1..] + b;
    }
  }

  lemma {:induction false} NoOccurrence(s: string, c: char)
    ensures Occurrences(s, c) == 0 <==> c !in s
  {
    if s != "" {
      NoOccurrence(s[1..], c);
      assert s == [s[0]] + s[1..];
    }
  }

  /** Joining the parts of a split gives the string back. */
  lemma {:induction false} JoinSplit(s: string, sep: char)
    ensures Join(Split(s, sep), sep) == s
  {
    if s != "" {
      JoinSplit(s[1..], sep);
      var rest := Split(s[1..], sep);
      if s[0] == sep {
        JoinCons("", rest, sep);
      } else {
        JoinPrepend(s[0], rest, sep);
      }
    }
  }

  lemma {:induction false} JoinCons(first: string, parts: seq<string>, sep: char)
    requires parts != []
    ensures Join([first] + parts, sep) == first + [sep] + Join(parts, sep)
  {
    assert ([first] + parts)[1..] == parts;
  }

  lemma {:induction false} JoinPrepend(c: char, parts: seq<string>, sep: char)
    requires parts != []
    ensures Join([[c] + parts[0]] + parts[1..], sep) == [c] + Join(parts, sep)
  {
    assert ([[c] + parts[0]] + parts[1..])[1..] == parts[1..];
    if |parts| > 1 {
      assert [c] + parts[0] + [sep] + Join(parts[1..], sep) == [c] + (parts[0] + [sep] + Join(parts[1..], sep));
    }
  }

  /** A split has one part more than there are separators. */
  lemma {:induction false} SplitCount(s: string, sep: char)
    ensures |Split(s, sep)| == Occurrences(s, sep) + 1
  {
    if s != "" {
      SplitCount(s[1..], sep);
    }
  }

  /** No part contains the separator. */
  lemma {:induction false} SplitPieces(s: string, sep: char)
    ensures forall p <- Split(s, sep) :: sep !in p
  {
    if s != "" {
      SplitPieces(s[1..], sep);
      var rest := Split(s[1..], sep);
      assert rest[0] in rest;
      assert forall p <- rest[1..] :: p in rest;
    }
  }

  /** Splitting after a piece without separators. */
  lemma {:induction false} SplitFirst(a: string, b: string, sep: char)
    requires sep !in a
    ensures Split(a + [sep] + b, sep) == [a] + Split(b, sep)
  {
    var s := a + [sep] + b;
    if a == "" {
      assert s[1..] == b;
    } else {
      SplitFirst(a[1..], b, sep);
      assert s[1..] == a[1..] + [sep] + b;
      assert a == [a[0]] + a[1..];
      assert a[0] in a && sep !in a[1..];
    }
  }

  lemma {:induction false} SplitPlain(a: string, sep: char)
    requires sep !in a
    ensures Split(a, sep) == [a]
  {
    if a != "" {
      SplitPlain(a[1..], sep);
      assert a == [a[0]] + a[1..];
      assert a[0] in a;
    }
  }

  /** Splitting undoes joining, for any pieces without the separator. */
  lemma {:induction false} SplitJoin(parts: seq<string>, sep: char)
    requires parts != [] && forall p <- parts :: sep !in p
    ensures Split(Join(parts, sep), sep) == parts
  {
    if |parts| == 1 {
      SplitPlain(parts[0], sep);
    } else {
      SplitJoin(parts[1..], sep);
      SplitFirst(parts[0], Join(parts[1..], sep), sep);
    }
  }

  // ---------------------------------------------------------------------------------------
  // ParseImageRef

  datatype ImageRef = ImageRef(registry: string, repository: string, tag: string)

  /** Separates the registry: a first path component with a dot in it. */
  function WithRegistry(path: string, tag: string): ImageRef {
    var parts := Split(path, '/');
    if |parts| > 1 && '.' in parts[0] then ImageRef(parts[0], Join(parts[1..], '/'), tag)
    else ImageRef("docker.io", path, tag)
  }

  function ParseImageRef(ref: string): ImageRef {
    var parts := Split(ref, ':');
    if |parts| == 2 then WithRegistry(parts[0], parts[1]) else WithRegistry(ref, "latest")
  }

  function Print(r: ImageRef): string { r.registry + "/" + r.repository + ":" + r.tag }

  /**
   What parsing makes of every form of reference. A first path component with a dot is the registry;
   otherwise the registry is docker.io and the whole path the repository. What follows the one colon
   is the tag; without a colon the tag is "latest".
   */
  lemma {:induction false} ParseMeaning(host: string, rest: string, tag: string)
    requires '/' !in host && ':' !in host && ':' !in rest && ':' !in tag
    ensures '.' in host ==>
      && ParseImageRef(host + "/" + rest + ":" + tag) == ImageRef(host, rest, tag)
      && ParseImageRef(host + "/" + rest) == ImageRef(host, rest, "latest")
    ensures '.' !in host ==>
      && ParseImageRef(host + "/" + rest + ":" + tag) == ImageRef("docker.io", host + "/" + rest, tag)
      && ParseImageRef(host + "/" + rest) == ImageRef("docker.io", host + "/" + rest, "latest")
    ensures ParseImageRef(host + ":" + tag) == ImageRef("docker.io", host, tag)
    ensures ParseImageRef(host) == ImageRef("docker.io", host, "latest")
  {
    var path := host + "/" + rest;
    ParseTagged(path, tag);
    SplitPlain(path, ':');
    ParseTagged(host, tag);
    SplitPlain(host, ':');
    SplitPlain(host, '/');
    HostMeaning(host, rest, tag);
    HostMeaning(host, rest, "latest");
  }

  lemma {:induction false} ParseTagged(path: string, tag: string)
    requires ':' !in path && ':' !in tag
    ensures ParseImageRef(path + ":" + tag) == WithRegistry(path, tag)
  {
    SplitFirst(path, tag, ':');
    SplitPlain(tag, ':');
  }

  /** With two colons or more the whole text is the path, and the tag is "latest". */
  lemma {:induction false} ManyColons(a: string, b: string, c: string, host: string, rest: string)
    requires '/' !in host && a + ":" + b + ":" + c == host + "/" + rest
    ensures ParseImageRef(host + "/" + rest)
            == if '.' in host then ImageRef(host, rest, "latest")
               else ImageRef("docker.io", host + "/" + rest, "latest")
  {
    HostMeaning(host, rest, "latest");
    TwoColons(a, b, c);
  }

  lemma {:induction false} ManyColonsNoSlash(a: string, b: string, c: string)
    requires '/' !in a + ":" + b + ":" + c
    ensures ParseImageRef(a + ":" + b + ":" + c) == ImageRef("docker.io", a + ":" + b + ":" + c, "latest")
  {
    TwoColons(a, b, c);
    SplitPlain(a + ":" + b + ":" + c, '/');
  }

  lemma {:induction false} TwoColons(a: string, b: string, c: string)
    ensures |Split(a + ":" + b + ":" + c, ':')| >= 3
  {
    var s := a + ":" + b + ":" + c;
    SplitCount(s, ':');
    OccurrencesAppend(a + ":" + b + ":", c, ':');
    OccurrencesAppend(a + ":" + b, ":", ':');
    OccurrencesAppend(a + ":", b, ':');
    OccurrencesAppend(a, ":", ':');
    assert Occurrences(":", ':') == 1 + Occurrences(":"[1..], ':');
  }

  lemma {:induction false} HostMeaning(host: string, rest: string, tag: string)
    requires '/' !in host
    ensures WithRegistry(host + "/" + rest, tag)
            == if '.' in host then ImageRef(host, rest, tag) else ImageRef("docker.io", host + "/" + rest, tag)
  {
    SplitFirst(host, rest, '/');
    JoinSplit(rest, '/');
    var parts := Split(host + "/" + rest, '/');
    assert parts[1..] == Split(rest, '/');
  }

  /** Any reference's registry is one path component with a dot. */
  lemma {:induction false} RegistryShape(path: string, tag: string)
    ensures var r := WithRegistry(path, tag);
      '.' in r.registry && '/' !in r.registry && r.tag == tag
  {
    var parts := Split(path, '/');
    if |parts| > 1 && '.' in parts[0] {
      SplitPieces(path, '/');
      assert parts[0] in parts;
    } else {
      assert "docker.io"[6] == '.';
    }
  }

  /** The path is only taken apart: no colon is lost or added. */
  lemma {:induction false} RegistryColons(path: string, tag: string)
    ensures var r := WithRegistry(path, tag);
      Occurrences(r.registry, ':') + Occurrences(r.repository, ':') == Occurrences(path, ':')
  {
    var parts, r := Split(path, '/'), WithRegistry(path, tag);
    if |parts| > 1 && '.' in parts[0] {
      JoinSplit(path, '/');
      assert path == r.registry + "/" + r.repository;
      PathColons(r.registry, r.repository);
    } else {
      NoOccurrence("docker.io", ':');
    }
  }

  lemma {:induction false} PathColons(registry: string, repository: string)
    ensures Occurrences(registry + "/" + repository, ':') == Occurrences(registry, ':') + Occurrences(repository, ':')
  {
    OccurrencesAppend(registry + "/", repository, ':');
    OccurrencesAppend(registry, "/", ':');
    NoOccurrence("/", ':');
  }

  /** Reading a registry and a repository back from their path. */
  lemma {:induction false} RegistryRoundTrip(registry: string, repository: string, tag: string)
    requires '.' in registry && '/' !in registry
    ensures WithRegistry(registry + "/" + repository, tag) == ImageRef(registry, repository, tag)
  {
    HostMeaning(registry, repository, tag);
  }

  lemma {:induction false} PrintColons(r: ImageRef)
    ensures Occurrences(Print(r), ':')
            == Occurrences(r.registry, ':') + Occurrences(r.repository, ':') + 1 + Occurrences(r.tag, ':')
  {
    var path := r.registry + "/" + r.repository;
    PathColons(r.registry, r.repository);
    OccurrencesAppend(path, ":", ':');
    OccurrencesAppend(path + ":", r.tag, ':');
    assert Occurrences(":", ':') == 1 + Occurrences(":"[1..], ':');
  }

  /** With at most one colon, the canonical form parses to the same triple. */
  lemma {:induction false} CanonicalWhenPlain(r: ImageRef)
    requires '.' in r.registry && '/' !in r.registry
    requires ':' !in r.registry && ':' !in r.repository && ':' !in r.tag
    ensures ParseImageRef(Print(r)) == r
  {
    var path := r.registry + "/" + r.repository;
    SplitFirst(path, r.tag, ':');
    SplitPlain(r.tag, ':');
    assert Split(Print(r), ':') == [path, r.tag];
    RegistryRoundTrip(r.registry, r.repository, r.tag);
  }

  /** With more, the canonical form is not split at all, and its repository swallows the tag. */
  lemma {:induction false} TagSwallowed(r: ImageRef)
    requires '.' in r.registry && '/' !in r.registry
    requires Occurrences(r.registry, ':') + Occurrences(r.repository, ':') >= 2
    ensures ParseImageRef(Print(r)) == ImageRef(r.registry, r.repository + ":" + r.tag, "latest")
  {
    PrintColons(r);
    SplitCount(Print(r), ':');
    assert Print(r) == r.registry + "/" + (r.repository + ":" + r.tag);
    RegistryRoundTrip(r.registry, r.repository + ":" + r.tag, "latest");
  }

  /** What parsing leaves of a reference's colons: the one of the tag goes, and with more than one none does. */
  lemma {:induction false} ParsedShape(ref: string)
    ensures var r := ParseImageRef(ref);
      && '.' in r.registry && '/' !in r.registry && ':' !in r.tag
      && Occurrences(r.registry, ':') + Occurrences(r.repository, ':')
         == if Occurrences(ref, ':') <= 1 then 0 else Occurrences(ref, ':')
  {
    var parts := Split(ref, ':');
    SplitCount(ref, ':');
    if |parts| == 2 {
      SplitPieces(ref, ':');
      assert parts[0] in parts && parts[1] in parts;
      RegistryShape(parts[0], parts[1]);
      RegistryColons(parts[0], parts[1]);
      NoOccurrence(parts[0], ':');
    } else {
      RegistryShape(ref, "latest");
      RegistryColons(ref, "latest");
      NoOccurrence("latest", ':');
    }
  }

  /** Parsing is canonical exactly on the references with at most one colon. */
  lemma {:induction false} CanonicalIff(ref: string)
    ensures ParseImageRef(Print(ParseImageRef(ref))) == ParseImageRef(ref) <==> Occurrences(ref, ':') <= 1
  {
    var r := ParseImageRef(ref);
    ParsedShape(ref);
    if Occurrences(ref, ':') <= 1 {
      NoOccurrence(r.registry, ':');
      NoOccurrence(r.repository, ':');
      CanonicalWhenPlain(r);
    } else {
      TagSwallowed(r);
      assert |r.repository + ":" + r.tag| > |r.repository|;
    }
  }
}
