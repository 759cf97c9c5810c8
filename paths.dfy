/**
 * The string operations the engine applies to node paths: Python's
 * `str.split` with a one-character separator, its inverse `join`, and
 * the substring test `needle in hay`.
 */
module Paths {
  import opened Opt

  const Slash: char := '/'

  /** `s.split(sep)`: the pieces between separators, empty ones included. */
  function Split(s: string, sep: char): (r: seq<string>)
    ensures |r| >= 1
    ensures forall k | 0 <= k < |r| :: sep !in r[k]
    decreases |s|
  {
    if s == [] then [""]
    else
      var rest := Split(s[1..], sep);
      if s[0] == sep then [""] + rest
      else [[s[0]] + rest[0]] + rest[1..]
  }

  /** `sep.join(segments)`. */
  function Join(segments: seq<string>, sep: char): string
    requires |segments| >= 1
    decreases |segments|
  {
    if |segments| == 1 then segments[0]
    else segments[0] + [sep] + Join(segments[1..], sep)
  }

  /** Splitting and joining again gives back the string. */
  lemma {:induction false} JoinSplit(s: string, sep: char)
    ensures Join(Split(s, sep), sep) == s
    decreases |s|
  {
    if s != [] {
      var rest := Split(s[1..], sep);
      JoinSplit(s[1..], sep);
      if s[0] == sep {
        assert Split(s, sep)[1..] == rest;
      } else if |rest| > 1 {
        assert Split(s, sep)[1..] == rest[1..];
        assert Join(rest, sep) == rest[0] + [sep] + Join(rest[1..], sep);
      }
    }
  }

  /** A string without the separator is a single piece. */
  lemma {:induction false} SplitWithoutSep(s: string, sep: char)
    requires sep !in s
    ensures Split(s, sep) == [s]
    decreases |s|
  {
    if s != [] {
      SplitWithoutSep(s[1..], sep);
      assert s[0] != sep && [s[0]] + s[1..] == s;
      assert Split(s, sep) == [[s[0]] + s[1..]] + [s[1..]][1..];
    }
  }

  /** A separator after a separator-free prefix ends the first piece. */
  lemma {:induction false} SplitAfterPiece(x: string, sep: char, y: string)
    requires sep !in x
    ensures Split(x + [sep] + y, sep) == [x] + Split(y, sep)
    decreases |x|
  {
    var s := x + [sep] + y;
    if x == [] {
      assert s[1..] == y;
    } else {
      assert s[1..] == x[1..] + [sep] + y;
      SplitAfterPiece(x[1..], sep, y);
      assert [x[0]] + x[1..] == x;
    }
  }

  /** Joining separator-free pieces and splitting again gives back the pieces. */
  lemma {:induction false} SplitJoin(segments: seq<string>, sep: char)
    requires |segments| >= 1
    requires forall k | 0 <= k < |segments| :: sep !in segments[k]
    ensures Split(Join(segments, sep), sep) == segments
    decreases |segments|
  {
    if |segments| == 1 {
      SplitWithoutSep(segments[0], sep);
    } else {
      SplitJoin(segments[1..], sep);
      SplitAfterPiece(segments[0], sep, Join(segments[1..], sep));
    }
  }

  /**
   * The network context of a path: piece 1 of `path.split('/')`, or None
   * where Python's index would raise IndexError (a path with no '/').
   */
  function NetworkContext(path: string): (r: Option<string>)
    ensures r.Some? ==> Slash !in r.value
  {
    var pieces := Split(path, Slash);
    if |pieces| > 1 then Some(pieces[1]) else None
  }

  /** For an absolute path `/a/...` the network context is `a`. */
  lemma NetworkContextOfAbsolute(a: string, rest: string)
    requires Slash !in a
    ensures NetworkContext([Slash] + a) == Some(a)
    ensures NetworkContext([Slash] + a + [Slash] + rest) == Some(a)
  {
    SplitWithoutSep(a, Slash);
    SplitAfterPiece("", Slash, a);
    assert [] + [Slash] + a == [Slash] + a;
    SplitAfterPiece(a, Slash, rest);
    SplitAfterPiece("", Slash, a + [Slash] + rest);
    assert [] + [Slash] + (a + [Slash] + rest) == [Slash] + a + [Slash] + rest;
  }

  /** Exactly the paths without a '/' have no network context. */
  lemma {:induction false} NoNetworkContext(path: string)
    ensures NetworkContext(path).None? <==> Slash !in path
  {
    if Slash in path {
      var i :| 0 <= i < |path| && path[i] == Slash;
      JoinSplit(path, Slash);
      assert |Split(path, Slash)| > 1;
    } else {
      SplitWithoutSep(path, Slash);
    }
  }

  /** The network context of `/obj/geo1` is `obj`. */
  lemma ObjContext()
    ensures NetworkContext("/obj/geo1") == Some("obj")
  {
    NetworkContextOfAbsolute("obj", "geo1");
    assert [Slash] + "obj" + [Slash] + "geo1" == "/obj/geo1";
  }

  /** `hay.startswith(prefix)`. */
  predicate IsPrefix(prefix: string, hay: string)
  {
    |prefix| <= |hay| && hay[..|prefix|] == prefix
  }

  /** `needle in hay` for Python strings: some suffix of `hay` starts with `needle`. */
  predicate IsSubstring(needle: string, hay: string)
    ensures IsSubstring(needle, hay) ==> |needle| <= |hay|
  {
    exists i | 0 <= i <= |hay| :: IsPrefix(needle, hay[i..])
  }
}
