/** What the registry uses of Go's `net/url` and `net/http`: deciding whether a
    string is an absolute URL with a scheme and a host, and the outcome of one
    HTTP GET. */
module Net {
  import opened Wrappers

  /** An absolute URL `scheme://host/path` split into its parts. */
  datatype Url = Url(scheme: string, host: string, path: string)

  /** The outcome of `client.Get(url)`: a transport error, or a response with its status code. */
  datatype Outcome = TransportError | Response(statusCode: int)

  predicate IsLetter(c: char)
  {
    'a' <= c <= 'z' || 'A' <= c <= 'Z'
  }

  predicate IsSchemeChar(c: char)
  {
    IsLetter(c) || '0' <= c <= '9' || c == '+' || c == '-' || c == '.'
  }

  /** A URI scheme: a letter followed by letters, digits, `+`, `-` or `.`. */
  predicate IsScheme(s: string)
  {
    |s| > 0 && IsLetter(s[0]) && forall k :: 0 < k < |s| ==> IsSchemeChar(s[k])
  }

  /** Position of the first `c` in `s`, or `|s|` when there is none. */
  function IndexOf(s: string, c: char): (i: nat)
    ensures i <= |s|
    ensures i < |s| ==> s[i] == c
  {
    if s == [] then 0
    else if s[0] == c then 0
    else 1 + IndexOf(s[1..], c)
  }

  /** No `c` comes before the position `IndexOf` finds. */
  lemma {:induction false} IndexOfIsFirst(s: string, c: char)
    ensures forall j :: 0 <= j < IndexOf(s, c) ==> s[j] != c
    decreases |s|
  {
    if s != [] && s[0] != c {
      IndexOfIsFirst(s[1..], c);
      forall j | 0 < j < IndexOf(s, c) ensures s[j] != c {
        assert s[j] == s[1..][j - 1];
      }
    }
  }

  /** The parts of a URL a probe may target: a scheme, a non-empty host without
      `/`, and a path that is empty or absolute. */
  ghost predicate WellFormed(u: Url)
  {
    && IsScheme(u.scheme)
    && u.host != [] && '/' !in u.host
    && (u.path == [] || u.path[0] == '/')
  }

  function Render(u: Url): string
  {
    u.scheme + "://" + u.host + u.path
  }

  /** Parses `scheme://host[/path]`; `None` when the scheme is missing or
      invalid, when `://` does not follow it, or when the host is empty. */
  function Parse(s: string): (r: Option<Url>)
  {
    var i := IndexOf(s, ':');
    if i + 3 <= |s| && s[i..i + 3] == "://" && IsScheme(s[..i]) then
      var rest := s[i + 3..];
      var j := IndexOf(rest, '/');
      if j == 0 then None else Some(Url(s[..i], rest[..j], rest[j..]))
    else
      None
  }

  /** Concatenation is associative; called to regroup a concatenation where a
      proof needs the other grouping. */
  lemma AppendAssoc(a: string, b: string, c: string)
    ensures a + b + c == a + (b + c)
  {
  }

  /** Every parse result is well formed. */
  lemma ParseIsWellFormed(s: string)
    ensures Parse(s).Some? ==> WellFormed(Parse(s).value)
  {
    var i := IndexOf(s, ':');
    if i + 3 <= |s| && s[i..i + 3] == "://" && IsScheme(s[..i]) {
      var rest := s[i + 3..];
      var j := IndexOf(rest, '/');
      if j != 0 {
        var u := Url(s[..i], rest[..j], rest[j..]);
        assert Parse(s) == Some(u);
        assert '/' !in u.host by {
          IndexOfIsFirst(rest, '/');
          forall k | 0 <= k < j ensures u.host[k] != '/' {
            assert u.host[k] == rest[k];
          }
        }
        assert u.path == [] || u.path[0] == rest[j];
      }
    }
  }

  /** Cutting `s` around a `://` at `i` and again `j` characters later, then
      gluing the pieces back, gives `s`. */
  lemma Reassemble(s: string, i: nat, j: nat)
    requires i + 3 <= |s| && s[i..i + 3] == "://" && j <= |s| - (i + 3)
    ensures s[..i] + "://" + s[i + 3..][..j] + s[i + 3..][j..] == s
  {
    var rest := s[i + 3..];
    AppendAssoc(s[..i] + "://", rest[..j], rest[j..]);
    assert rest[..j] + rest[j..] == rest;
    assert s[..i] + s[i..i + 3] == s[..i + 3];
    assert s[..i + 3] + rest == s;
  }

  /** Every parse result renders back to the parsed text. */
  lemma ParseIsRendered(s: string)
    ensures Parse(s).Some? ==> Render(Parse(s).value) == s
  {
    var i := IndexOf(s, ':');
    if i + 3 <= |s| && s[i..i + 3] == "://" && IsScheme(s[..i]) {
      var j := IndexOf(s[i + 3..], '/');
      if j != 0 {
        Reassemble(s, i, j);
      }
    }
  }

  /** Searching past a prefix free of `c` adds the prefix's length. */
  lemma {:induction false} IndexOfAfter(a: string, b: string, c: char)
    requires c !in a
    ensures IndexOf(a + b, c) == |a| + IndexOf(b, c)
    decreases |a|
  {
    if a == [] {
      assert a + b == b;
    } else {
      assert (a + b)[1..] == a[1..] + b;
      IndexOfAfter(a[1..], b, c);
    }
  }

  /** A scheme holds no `:`. */
  lemma SchemeHasNoColon(s: string)
    requires IsScheme(s)
    ensures ':' !in s
  {
    forall k | 0 <= k < |s| ensures s[k] != ':' {
      if k > 0 { assert IsSchemeChar(s[k]); }
    }
  }

  /** Text made of a scheme, `://` and a remainder parses by splitting the
      remainder at its first `/`. */
  lemma ParseSplit(scheme: string, rest: string)
    requires IsScheme(scheme)
    ensures var j := IndexOf(rest, '/');
      Parse(scheme + "://" + rest) == if j == 0 then None else Some(Url(scheme, rest[..j], rest[j..]))
  {
    var s := scheme + "://" + rest;
    var n := |scheme|;
    var tail := "://" + rest;
    AppendAssoc(scheme, "://", rest);
    SchemeHasNoColon(scheme);
    IndexOfAfter(scheme, tail, ':');
    assert IndexOf(tail, ':') == 0;
    assert s[..n] == scheme;
    assert s[n..n + 3] == "://";
    assert s[n + 3..] == rest;
  }

  /** Rendering a well-formed URL and parsing it again gives the URL back. */
  lemma ParseRender(u: Url)
    requires WellFormed(u)
    ensures Parse(Render(u)) == Some(u)
  {
    var rest := u.host + u.path;
    var n := |u.host|;
    IndexOfAfter(u.host, u.path, '/');
    assert IndexOf(rest, '/') == n;
    assert rest[..n] == u.host;
    assert rest[n..] == u.path;
    ParseSplit(u.scheme, rest);
    AppendAssoc(u.scheme + "://", u.host, u.path);
  }

  /** Text whose first `:` is not followed by `//` is no URL. */
  lemma ColonWithoutSlashes(a: string, b: string)
    requires ':' !in a && |b| >= 3 && b[0] == ':' && b[1] != '/'
    ensures Parse(a + b) == None
  {
    IndexOfAfter(a, b, ':');
    assert (a + b)[|a| + 1] == b[1];
  }

  /** The host-and-port `localhost:8080` is no URL: it lacks `://`. */
  lemma HostPortIsNotUrl()
    ensures Parse("localhost:8080") == None
  {
    var host, port := "localhost", ":8080";
    assert ':' !in host;
    ColonWithoutSlashes(host, port);
    assert host + port == "localhost:8080";
  }

  /** `http://localhost/` is a URL with scheme `http`, host `localhost` and path `/`. */
  lemma LocalhostIsUrl()
    ensures Parse("http://localhost/") == Some(Url("http", "localhost", "/"))
  {
    var u := Url("http", "localhost", "/");
    assert IsScheme(u.scheme);
    assert Render(u) == "http://localhost/";
    ParseRender(u);
  }
}
