/** Paths of the object database: the parser that walks a path component by
    component, and what printing and parsing a path have to do with each other. */
module ObjectPaths {

  /** Sizes of the name buffers of the parser and of an object, terminator included. */
  const PART_BUFFER: int := 80
  const NAME_BUFFER: int := 64

  /** Characters before the first '/' of s. */
  function Head(s: string): (h: string)
    ensures |h| <= |s| && h == s[..|h|] && '/' !in h
    ensures |h| < |s| ==> s[|h|] == '/'
  {
    if s == "" || s[0] == '/' then "" else [s[0]] + Head(s[1..])
  }

  /** A path without the '/' that may come before its first component. */
  function Strip(s: string): string {
    if s != "" && s[0] == '/' then s[1..] else s
  }

  /** What a path is parsed into. */
  function Components(s: string): (cs: seq<string>)
    ensures cs != []
    decreases |s|
  {
    var h := Head(Strip(s));
    if |h| == |Strip(s)| then [h] else [h] + Components(Strip(s)[|h|..])
  }

  /** A printed path: each component after a '/'. */
  function Render(cs: seq<string>): string {
    if cs == [] then "" else "/" + cs[0] + Render(cs[1..])
  }

  predicate ValidName(c: string) {
    c != "" && '/' !in c && '\0' !in c && |c| < NAME_BUFFER
  }

  /** No component overflows the buffer of the parser. */
  ghost predicate Parsable(s: string) {
    '\0' !in s && forall i | 0 <= i < |Components(s)| :: |Components(s)[i]| < PART_BUFFER
  }

  /** A path below the root without empty or oversized components. */
  ghost predicate Canonical(s: string) {
    '\0' !in s && s != "" && s[0] == '/' && forall i | 0 <= i < |Components(s)| :: ValidName(Components(s)[i])
  }

  function Last(cs: seq<string>): string
    requires cs != []
  {
    cs[|cs| - 1]
  }

  lemma {:induction false} HeadOfPrefix(c: string, s: string)
    requires '/' !in c && (s == "" || s[0] == '/')
    ensures Head(c + s) == c
  {
    if c == "" {
      assert c + s == s;
    } else {
      assert (c + s)[1..] == c[1..] + s;
      HeadOfPrefix(c[1..], s);
    }
  }

  lemma RenderStart(cs: seq<string>)
    ensures cs != [] ==> Render(cs) != "" && Render(cs)[0] == '/'
  {
  }

  lemma {:induction false} RenderTerminated(cs: seq<string>)
    requires forall i | 0 <= i < |cs| :: '\0' !in cs[i]
    ensures '\0' !in Render(cs)
  {
    if cs != [] {
      RenderTerminated(cs[1..]);
    }
  }

  lemma ComponentsOfJoined(c: string, rest: string)
    requires '/' !in c && (rest == "" || rest[0] == '/')
    ensures Components("/" + c + rest) == if rest == "" then [c] else [c] + Components(rest)
  {
    assert Strip("/" + c + rest) == c + rest;
    HeadOfPrefix(c, rest);
    assert (c + rest)[|c|..] == rest;
  }

  /** Parsing a printed path gives back its components. */
  lemma {:induction false} ParseRendered(cs: seq<string>)
    requires cs != [] && forall i | 0 <= i < |cs| :: '/' !in cs[i]
    ensures Components(Render(cs)) == cs
    decreases |cs|
  {
    RenderStart(cs[1..]);
    ComponentsOfJoined(cs[0], Render(cs[1..]));
    if |cs| > 1 {
      ParseRendered(cs[1..]);
      assert cs == [cs[0]] + cs[1..];
    } else {
      assert cs == [cs[0]];
    }
  }

  lemma {:induction false} RenderConcat(a: seq<string>, b: seq<string>)
    ensures Render(a + b) == Render(a) + Render(b)
  {
    if a == [] {
      assert a + b == b;
    } else {
      RenderConcat(a[1..], b);
      assert (a + b)[1..] == a[1..] + b;
    }
  }

  /** Printing the components of a path that starts with '/' gives back the path. */
  lemma {:induction false} RenderParsed(s: string)
    requires s != "" && s[0] == '/'
    ensures Render(Components(s)) == s
    decreases |s|
  {
    assert Strip(s) == s[1..];
    var h := Head(s[1..]);
    if |h| < |s| - 1 {
      var rest := s[1 + |h|..];
      RenderParsed(rest);
      assert s[1..][|h|..] == rest;
      assert s == "/" + h + rest;
    } else {
      assert s == "/" + h;
      assert Components(s) == [h];
    }
  }

  lemma HeadStep(name: string, pos: nat)
    requires pos < |name| && name[pos] != '/'
    ensures Head(name[pos..]) == [name[pos]] + Head(name[pos + 1..])
  {
    assert name[pos..][1..] == name[pos + 1..];
  }

  lemma ComponentsStep(name: string, pos: nat, start: nat, pos': nat)
    requires pos <= start <= pos' <= |name| && name[start..] == Strip(name[pos..])
    requires pos' - start == |Head(name[start..])|
    ensures Components(name[pos..]) ==
      if pos' == |name| then [Head(name[start..])] else [Head(name[start..])] + Components(name[pos'..])
  {
    assert name[start..][pos' - start..] == name[pos'..];
  }

  /** Copies the characters before the next separator into the zeroed buffer. */
  method CopyPart(name: string, pos: nat, buf: array<char>) returns (pos': nat, len: nat)
    requires pos <= |name| && buf.Length == PART_BUFFER && |Head(name[pos..])| < PART_BUFFER
    requires forall k | 0 <= k < PART_BUFFER :: buf[k] == '\0'
    modifies buf
    ensures len < PART_BUFFER && buf[..len] == Head(name[pos..])
    ensures forall k | len <= k < PART_BUFFER :: buf[k] == '\0'
    ensures pos' == pos + len <= |name| && (pos' < |name| ==> name[pos'] == '/')
  {
    ghost var h := Head(name[pos..]);
    pos', len := pos, 0;
    while pos' < |name| && name[pos'] != '/'
      invariant pos' == pos + len <= |name|
      invariant len + |Head(name[pos'..])| == |h|
      invariant buf[..len] == name[pos..pos']
      invariant forall k | len <= k < PART_BUFFER :: buf[k] == '\0'
      decreases |name| - pos'
    {
      HeadStep(name, pos');
      buf[len] := name[pos'];
      len, pos' := len + 1, pos' + 1;
    }
    assert Head(name[pos'..]) == "";
    assert h == name[pos..][..len] == name[pos..pos'];
  }

  /** One parser step: reads the component at pos into the buffer, and stops on the next
      separator or at the end. */
  method ParsePart(name: string, pos: nat, buf: array<char>) returns (pos': nat, len: nat, last: bool)
    requires pos <= |name| && buf.Length == PART_BUFFER && |Components(name[pos..])[0]| < PART_BUFFER
    modifies buf
    ensures len < PART_BUFFER && buf[..len] == Components(name[pos..])[0]
    ensures forall k | len <= k < PART_BUFFER :: buf[k] == '\0'
    ensures pos <= pos' <= |name| && last == (pos' == |name|)
    ensures Components(name[pos..]) == if last then [buf[..len]] else [buf[..len]] + Components(name[pos'..])
  {
    forall k | 0 <= k < buf.Length {
      buf[k] := '\0';
    }
    var start := pos;
    if start < |name| && name[start] == '/' {
      start := start + 1;
    }
    assert name[start..] == Strip(name[pos..]);
    pos', len := CopyPart(name, start, buf);
    last := pos' == |name|;
    ComponentsStep(name, pos, start, pos');
  }

  /** What follows the last '/' is the last component. */
  lemma {:induction false} LastAfterSlash(s: string, k: nat)
    requires 0 < k <= |s| && s[k - 1] == '/' && '/' !in s[k..]
    ensures Last(Components(s)) == s[k..]
    decreases |s|
  {
    var t := Strip(s);
    var h := Head(t);
    if |h| == |t| {
      assert k == 1;
    } else {
      var skipped := |s| - |t| + |h|;
      if k > skipped {
        assert t[|h|..] == s[skipped..];
        assert s[skipped..][k - skipped..] == s[k..];
        LastAfterSlash(s[skipped..], k - skipped);
      } else {
        assert false;
      }
    }
  }

  /** The name of an object created under a path: what follows the last '/'. */
  method Basename(name: string) returns (base: string)
    requires '/' in name
    ensures base == Last(Components(name))
  {
    var k := |name|;
    assert '/' in name[..k] by { assert name[..k] == name; }
    while name[k - 1] != '/'
      invariant 0 < k <= |name| && '/' in name[..k] && '/' !in name[k..]
      decreases k
    {
      assert name[..k] == name[..k - 1] + [name[k - 1]];
      assert name[k - 1..] == [name[k - 1]] + name[k..];
      k := k - 1;
    }
    LastAfterSlash(name, k);
    base := name[k..];
  }
}
