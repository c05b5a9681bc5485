/** HuggingFace Hub URLs: the printer, the parser for the four accepted forms, and how they round-trip. */
module HuggingFaceUrl {
  import opened Options

  datatype Url = Url(namespace: string, repo: string, branch: string, filePath: string)

  function TrimPrefix(s: string, p: string): string {
    if p <= s then s[|p|..] else s
  }

  /** The position of the first slash, or the length. */
  function SlashAt(s: string): (i: nat)
    ensures i <= |s| && '/' !in s[..i]
    ensures i < |s| ==> s[i] == '/'
  {
    if s == [] || s[0] == '/' then 0 else 1 + SlashAt(s[1..])
  }

  /** At most n pieces; the last one keeps its slashes. */
  function SplitN(s: string, n: nat): (parts: seq<string>)
    requires n >= 1
    ensures 1 <= |parts| <= n
    ensures forall i | 0 <= i < |parts| && i < n - 1 :: '/' !in parts[i]
  {
    var i := SlashAt(s);
    if n == 1 || i == |s| then [s] else [s[..i]] + SplitN(s[i + 1..], n - 1)
  }

  function Parse(url: string): Option<Url> {
    if "hf://" <= url then ParseHFProtocol(url) else ParseWeb(WithoutHost(url))
  }

  function WithoutHost(url: string): string {
    TrimPrefix(TrimPrefix(TrimPrefix(TrimPrefix(url, "https://"), "http://"), "huggingface.co/"), "hf.co/")
  }

  function ParseWeb(url: string): Option<Url> {
    var parts := SplitN(url, 4);
    if |parts| < 4 then None
    else if parts[2] == "resolve" || parts[2] == "blob" then
      var sub := SplitN(parts[3], 2);
      Some(Url(parts[0], parts[1], sub[0], if |sub| >= 2 then sub[1] else ""))
    else Some(Url(parts[0], parts[1], parts[2], parts[3]))
  }

  function ParseHFProtocol(url: string): Option<Url> {
    var parts := SplitN(TrimPrefix(url, "hf://"), 3);
    if |parts| < 2 then None
    else if |parts| < 3 then Some(Url(parts[0], parts[1], "main", ""))
    else
      var sub := SplitN(parts[2], 2);
      if |sub| == 2 && (sub[0] == "main" || sub[0] == "master")
      then Some(Url(parts[0], parts[1], sub[0], sub[1]))
      else Some(Url(parts[0], parts[1], "main", parts[2]))
  }

  function String(u: Url): string {
    "https://huggingface.co/" + u.namespace + "/" + u.repo + "/resolve/" + u.branch + "/" + u.filePath
  }

  predicate SlashFree(u: Url) {
    '/' !in u.namespace && '/' !in u.repo && '/' !in u.branch
  }

  lemma {:induction false} SlashAfter(a: string, rest: string)
    requires '/' !in a
    ensures SlashAt(a + "/" + rest) == |a|
  {
    var s := a + "/" + rest;
    if a != [] {
      assert s[1..] == a[1..] + "/" + rest && s[0] == a[0] && '/' !in a[1..];
      SlashAfter(a[1..], rest);
    }
  }

  /** Everything before the first slash is the first piece. */
  lemma SplitHead(a: string, rest: string, n: nat)
    requires '/' !in a && n >= 2
    ensures SplitN(a + "/" + rest, n) == [a] + SplitN(rest, n - 1)
  {
    SlashAfter(a, rest);
    assert (a + "/" + rest)[..|a|] == a && (a + "/" + rest)[|a| + 1..] == rest;
  }

  lemma SplitPair(a: string, rest: string)
    requires '/' !in a
    ensures SplitN(a + "/" + rest, 2) == [a, rest]
  {
    SplitHead(a, rest, 2);
  }

  lemma SplitTriple(a: string, b: string, rest: string)
    requires '/' !in a && '/' !in b
    ensures SplitN(a + "/" + (b + "/" + rest), 3) == [a, b, rest]
  {
    SplitPair(b, rest);
    hide SplitN;
    SplitHead(a, b + "/" + rest, 3);
  }

  lemma SplitFour(a: string, b: string, c: string, rest: string)
    requires '/' !in a && '/' !in b && '/' !in c
    ensures SplitN(a + "/" + (b + "/" + (c + "/" + rest)), 4) == [a, b, c, rest]
  {
    SplitTriple(b, c, rest);
    hide SplitN;
    SplitHead(a, b + "/" + (c + "/" + rest), 4);
  }

  lemma SplitTwo(s: string)
    ensures |SplitN(s, 2)| == 2 ==> s == SplitN(s, 2)[0] + "/" + SplitN(s, 2)[1]
    ensures |SplitN(s, 2)| == 1 ==> SplitN(s, 2) == [s]
  {
  }

  /** Whatever the parser accepts has no slash in namespace, repository or branch. */
  lemma ParsedIsSlashFree(url: string)
    ensures Parse(url).Some? ==> SlashFree(Parse(url).value)
  {
    WebIsSlashFree(WithoutHost(url));
    HFIsSlashFree(url);
    hide ParseWeb;
    hide ParseHFProtocol;
    hide WithoutHost;
  }

  lemma WebIsSlashFree(url: string)
    ensures ParseWeb(url).Some? ==> SlashFree(ParseWeb(url).value)
  {
    hide SplitN;
  }

  lemma HFIsSlashFree(url: string)
    ensures ParseHFProtocol(url).Some? ==> SlashFree(ParseHFProtocol(url).value)
  {
    hide SplitN;
  }

  /** The path of a web URL, with a fixed word before the branch. */
  function WebPath(u: Url, kind: string): string {
    u.namespace + "/" + (u.repo + "/" + (kind + "/" + (u.branch + "/" + u.filePath)))
  }

  lemma ParseOfWebPath(u: Url, kind: string)
    requires SlashFree(u) && (kind == "resolve" || kind == "blob")
    ensures ParseWeb(WebPath(u, kind)) == Some(u)
  {
    hide SplitN;
    SplitFour(u.namespace, u.repo, kind, u.branch + "/" + u.filePath);
    SplitPair(u.branch, u.filePath);
  }

  function CutPath(u: Url, kind: string): string {
    u.repo + "/" + (kind + "/" + (u.branch + "/" + u.filePath))
  }

  /** Without its namespace a printed path has the fixed word in the place of the repository. */
  lemma ParseOfCutPath(u: Url, kind: string)
    requires SlashFree(u) && (kind == "resolve" || kind == "blob")
    ensures var cut := ParseWeb(CutPath(u, kind));
      cut.Some? && cut.value.namespace == u.repo && cut.value.repo == kind
  {
    hide SplitN;
    SplitFour(u.repo, kind, u.branch, u.filePath);
  }

  lemma StartsWithIff(a: string, host: string, rest: string)
    requires '/' !in a && '/' !in host
    ensures host + "/" <= a + "/" + rest <==> a == host
  {
    var s := a + "/" + rest;
    if host + "/" <= s {
      assert s == host + "/" + s[|host| + 1..];
      SlashAfter(a, rest);
      SlashAfter(host, s[|host| + 1..]);
      assert s[..|a|] == a && s[..|host|] == host;
    }
  }

  lemma TrimmedWebPath(u: Url, kind: string)
    requires SlashFree(u)
    ensures TrimPrefix(WebPath(u, kind), "hf.co/") == if u.namespace == "hf.co" then CutPath(u, kind) else WebPath(u, kind)
  {
    var rest := CutPath(u, kind);
    StartsWithIff(u.namespace, "hf.co", rest);
    TrimOf("hf.co/", rest);
    hide CutPath;
    assert "hf.co" + "/" == "hf.co/";
  }

  lemma TrimOf(p: string, s: string)
    ensures TrimPrefix(p + s, p) == s
  {
  }

  lemma WithoutScheme(scheme: string, rest: string)
    requires scheme == "" || scheme == "http://" || scheme == "https://"
    requires |rest| > 1 && rest[0] == 'h' && rest[1] != 't'
    ensures !("hf://" <= rest) ==> !("hf://" <= scheme + rest)
    ensures TrimPrefix(TrimPrefix(scheme + rest, "https://"), "http://") == rest
  {
    assert !("https://" <= rest) && !("http://" <= rest);
    if scheme == "" {
      assert scheme + rest == rest;
    } else {
      TrimOf(scheme, rest);
      assert (scheme + rest)[1] == 't' && (scheme == "http://" ==> (scheme + rest)[4] == ':');
    }
  }

  lemma WithoutHostName(host: string, rest: string)
    requires host == "huggingface.co/" || host == "hf.co/"
    ensures TrimPrefix(TrimPrefix(host + rest, "huggingface.co/"), "hf.co/")
         == if host == "hf.co/" then rest else TrimPrefix(rest, "hf.co/")
    ensures !("hf://" <= host + rest)
  {
    TrimOf(host, rest);
    assert (host + rest)[1] == host[1] && (host + rest)[2] == host[2];
  }

  lemma ParseOfWebForm(scheme: string, host: string, rest: string)
    requires scheme == "" || scheme == "http://" || scheme == "https://"
    requires host == "huggingface.co/" || host == "hf.co/"
    ensures Parse(scheme + (host + rest)) == ParseWeb(if host == "hf.co/" then rest else TrimPrefix(rest, "hf.co/"))
  {
    hide ParseWeb;
    hide TrimPrefix;
    WithoutHostName(host, rest);
    WithoutScheme(scheme, host + rest);
  }

  /**
   The documented web forms, with or without a scheme, at either host, with either fixed word: all of
   them name what was printed, except that a namespace "hf.co" directly after "huggingface.co/" is
   taken for a host and lost.
   */
  lemma WebFormIff(scheme: string, host: string, kind: string, u: Url)
    requires scheme == "" || scheme == "http://" || scheme == "https://"
    requires host == "huggingface.co/" || host == "hf.co/"
    requires kind == "resolve" || kind == "blob"
    requires SlashFree(u)
    ensures Parse(scheme + (host + WebPath(u, kind))) == Some(u) <==> host == "hf.co/" || u.namespace != "hf.co"
  {
    ParseOfWebForm(scheme, host, WebPath(u, kind));
    ParseOfWebPath(u, kind);
    TrimmedWebPath(u, kind);
    ParseOfCutPath(u, kind);
    hide *;
  }

  lemma StringIsWebForm(u: Url)
    ensures String(u) == "https://" + ("huggingface.co/" + WebPath(u, "resolve"))
  {
  }

  /** Printing then parsing gives the value back exactly for slash-free parts and a namespace that is not a host name. */
  lemma ParseOfStringIff(u: Url)
    ensures Parse(String(u)) == Some(u) <==> SlashFree(u) && u.namespace != "hf.co"
  {
    ParsedIsSlashFree(String(u));
    if SlashFree(u) {
      StringIsWebForm(u);
      WebFormIff("https://", "huggingface.co/", "resolve", u);
    }
  }

  /** Parsing, printing and parsing again changes nothing, for every accepted URL of either protocol. */
  lemma ParsePrintParseIff(url: string)
    requires Parse(url).Some?
    ensures Parse(String(Parse(url).value)) == Parse(url) <==> Parse(url).value.namespace != "hf.co"
  {
    ParsedIsSlashFree(url);
    ParseOfStringIff(Parse(url).value);
  }

  /** Different values never print alike, unless one of them does not survive printing. */
  lemma StringIsInjective(u: Url, v: Url)
    requires SlashFree(u) && u.namespace != "hf.co" && SlashFree(v) && v.namespace != "hf.co"
    ensures String(u) == String(v) ==> u == v
  {
    ParseOfStringIff(u);
    ParseOfStringIff(v);
  }

  function Slashes(s: string): nat {
    if s == [] then 0 else (if s[0] == '/' then 1 else 0) + Slashes(s[1..])
  }

  lemma {:induction false} SlashesAfter(s: string)
    ensures var i := SlashAt(s); Slashes(s) == if i == |s| then 0 else 1 + Slashes(s[i + 1..])
  {
    if s != [] && s[0] != '/' {
      SlashesAfter(s[1..]);
      assert SlashAt(s) == 1 + SlashAt(s[1..]);
      assert SlashAt(s) < |s| ==> s[SlashAt(s) + 1..] == s[1..][SlashAt(s[1..]) + 1..];
    }
  }

  lemma {:induction false} PiecesOf(s: string, n: nat)
    requires n >= 1
    ensures |SplitN(s, n)| == if Slashes(s) + 1 < n then Slashes(s) + 1 else n
    decreases n
  {
    SlashesAfter(s);
    if n > 1 && SlashAt(s) < |s| {
      PiecesOf(s[SlashAt(s) + 1..], n - 1);
    }
  }

  /** What is accepted: three slashes after the host, or one after the protocol. */
  lemma AcceptedIff(url: string)
    ensures Parse(url).Some?
       <==> if "hf://" <= url then Slashes(url[|"hf://"|..]) >= 1 else Slashes(WithoutHost(url)) >= 3
  {
    WebAcceptedIff(WithoutHost(url));
    if "hf://" <= url {
      HFAcceptedIff(url);
    }
    hide ParseWeb;
    hide ParseHFProtocol;
    hide Slashes;
    hide WithoutHost;
  }

  lemma WebAcceptedIff(url: string)
    ensures ParseWeb(url).Some? <==> Slashes(url) >= 3
  {
    PiecesOf(url, 4);
    hide SplitN;
    hide Slashes;
  }

  lemma HFAcceptedIff(url: string)
    requires "hf://" <= url
    ensures ParseHFProtocol(url).Some? <==> Slashes(url[|"hf://"|..]) >= 1
  {
    PiecesOf(TrimPrefix(url, "hf://"), 3);
    hide SplitN;
    hide Slashes;
  }

  /**
   The form without a fixed word means what it says unless the branch is one of the fixed words: then the
   branch is the first directory of the path.
   */
  lemma BareFormIff(u: Url)
    requires SlashFree(u)
    ensures var parsed := ParseWeb(u.namespace + "/" + (u.repo + "/" + (u.branch + "/" + u.filePath)));
      && (parsed == Some(u) <==> u.branch != "resolve" && u.branch != "blob")
      && (u.branch in {"resolve", "blob"} ==>
            && parsed.Some? && SlashFree(parsed.value)
            && parsed.value.namespace == u.namespace && parsed.value.repo == u.repo
            && u.filePath in {parsed.value.branch, parsed.value.branch + "/" + parsed.value.filePath}
            && ('/' !in u.filePath ==> parsed.value.filePath == ""))
  {
    hide SplitN;
    SplitFour(u.namespace, u.repo, u.branch, u.filePath);
    SplitTwo(u.filePath);
    PiecesOf(u.filePath, 2);
    NoSlash(u.filePath);
    hide Slashes;
  }

  lemma {:induction false} NoSlash(s: string)
    ensures '/' !in s <==> Slashes(s) == 0
  {
    if s != [] {
      NoSlash(s[1..]);
      assert s == [s[0]] + s[1..];
    }
  }

  /**
   The hf:// form means the main branch and the whole path, as documented, unless the path starts with
   a directory called main or master: that directory is taken for the branch, and what follows it is the
   path.
   */
  lemma HFFormIff(namespace: string, repo: string, filePath: string)
    requires '/' !in namespace && '/' !in repo
    ensures var parsed := Parse("hf://" + (namespace + "/" + (repo + "/" + filePath)));
      && (parsed == Some(Url(namespace, repo, "main", filePath)) <==> !("main/" <= filePath) && !("master/" <= filePath))
      && ("main/" <= filePath ==> parsed == Some(Url(namespace, repo, "main", filePath[|"main/"|..])))
      && ("master/" <= filePath ==> parsed == Some(Url(namespace, repo, "master", filePath[|"master/"|..])))
  {
    var rest := namespace + "/" + (repo + "/" + filePath);
    TrimOf("hf://", rest);
    hide SplitN;
    SplitTriple(namespace, repo, filePath);
    SplitTwo(filePath);
    StartsWithFirst(filePath, "main");
    StartsWithFirst(filePath, "master");
  }

  /** Without a path the hf:// form names the main branch and no file; without a repository it is refused. */
  lemma HFRepoForm(namespace: string, repo: string)
    requires '/' !in namespace && '/' !in repo
    ensures Parse("hf://" + (namespace + "/" + repo)) == Some(Url(namespace, repo, "main", ""))
    ensures Parse("hf://" + namespace) == None
  {
    TrimOf("hf://", namespace + "/" + repo);
    TrimOf("hf://", namespace);
    NoSlash(repo);
    NoSlash(namespace);
    PiecesOf(repo, 2);
    PiecesOf(namespace, 3);
    SplitTwo(repo);
    SplitHead(namespace, repo, 3);
    hide SplitN;
    hide Slashes;
  }

  lemma StartsWithFirst(s: string, word: string)
    requires '/' !in word
    ensures var sub := SplitN(s, 2); word + "/" <= s <==> |sub| == 2 && sub[0] == word
  {
    SplitTwo(s);
    var sub := SplitN(s, 2);
    if |sub| == 2 {
      StartsWithIff(sub[0], word, sub[1]);
    } else {
      assert '/' !in s;
      assert (word + "/")[|word|] == '/';
    }
  }
}
