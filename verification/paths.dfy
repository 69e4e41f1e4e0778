/** The Unix path rules of `java.io.File` that the writer resolver relies on:
    normalisation of a path string, `new File(parent, child)`, `isAbsolute` and
    `getParent`. Paths are strings with '/' as the only separator. */
module Paths {

  import opened Wrappers
  import opened Seqs

  const SEPARATOR: char := '/'

  /** `isAbsolute`: the path starts with the separator. */
  predicate IsAbsolute(path: string) {
    |path| > 0 && path[0] == SEPARATOR
  }

  /** Runs of separators reduced to one. */
  function Collapse(s: string): (r: string)
    ensures |r| <= |s|
    ensures |r| > 0 <==> |s| > 0
    ensures |s| > 0 ==> r[0] == s[0] && r[|r| - 1] == s[|s| - 1]
    decreases |s|
  {
    if |s| <= 1 then s
    else if s[0] == SEPARATOR && s[1] == SEPARATOR then Collapse(s[1..])
    else [s[0]] + Collapse(s[1..])
  }

  /** One trailing separator dropped, unless it is the whole path. */
  function StripTrailing(s: string): string {
    if |s| > 1 && s[|s| - 1] == SEPARATOR then s[..|s| - 1] else s
  }

  /** The normal form `java.io.File` keeps paths in: no doubled separator and no
      trailing separator except for the root itself. */
  predicate Normalized(s: string) {
    && (forall i :: 0 <= i < |s| - 1 ==> !(s[i] == SEPARATOR && s[i + 1] == SEPARATOR))
    && (|s| > 1 ==> s[|s| - 1] != SEPARATOR)
  }

  /** `UnixFileSystem.normalize`. */
  function Normalize(s: string): (r: string)
    ensures |r| > 0 <==> |s| > 0
    ensures |s| > 0 ==> r[0] == s[0]
    ensures |s| > 0 && s[|s| - 1] != SEPARATOR ==> r[|r| - 1] == s[|s| - 1]
  {
    StripTrailing(Collapse(s))
  }

  /** `UnixFileSystem.resolve` of a normalised parent and child. */
  function ResolveChild(parent: string, child: string): string {
    if |child| == 0 then parent
    else if child[0] == SEPARATOR then (if parent == "/" then child else parent + child)
    else if parent == "/" then parent + child
    else parent + "/" + child
  }

  /** `new File(parent, child)`; an empty parent stands for the root directory. */
  function Child(parent: string, child: string): string {
    var c := Normalize(child);
    if |parent| == 0 then ResolveChild("/", c) else ResolveChild(Normalize(parent), c)
  }

  /** The last index of `c` in `s`, or -1. */
  function LastIndexOf(s: string, c: char): (r: int)
    ensures -1 <= r < |s|
    ensures r >= 0 ==> s[r] == c
    ensures r == -1 <==> c !in s
    ensures forall j :: r < j < |s| ==> s[j] != c
  {
    if |s| == 0 then -1
    else if s[|s| - 1] == c then |s| - 1
    else
      var r := LastIndexOf(s[..|s| - 1], c);
      assert forall j :: 0 <= j < |s| - 1 ==> s[..|s| - 1][j] == s[j];
      assert c in s ==> c in s[..|s| - 1] by {
        if c in s {
          var j :| 0 <= j < |s| && s[j] == c;
          assert s[..|s| - 1][j] == c;
        }
      }
      r
  }

  /** `getParent`, `None` for Java's `null`: the path up to its last separator, the
      root for a single name under the root, nothing for a bare name or the root. */
  function Parent(path: string): Option<string> {
    var index := LastIndexOf(path, SEPARATOR);
    var prefixLength := if IsAbsolute(path) then 1 else 0;
    if index < prefixLength then
      (if prefixLength > 0 && |path| > prefixLength then Some(path[..prefixLength]) else None)
    else Some(path[..index])
  }

  /** The names of a path: its non-empty segments between separators, in order. */
  function Names(s: string): seq<string> {
    NamesFrom(s, "")
  }

  /** The names of `s`, given the name `current` read so far. */
  function NamesFrom(s: string, current: string): seq<string>
    decreases |s|
  {
    if |s| == 0 then Flush(current)
    else if s[0] == SEPARATOR then Flush(current) + NamesFrom(s[1..], "")
    else NamesFrom(s[1..], current + [s[0]])
  }

  /** A finished segment: a name when it is non-empty. */
  function Flush(current: string): seq<string> {
    if current == "" then [] else [current]
  }

  /** Names joined by single separators. */
  function JoinNames(names: seq<string>): string {
    if |names| == 0 then ""
    else if |names| == 1 then names[0]
    else names[0] + [SEPARATOR] + JoinNames(names[1..])
  }

  // ----- Properties -----

  lemma {:induction false} CollapseNormal(s: string)
    ensures forall i :: 0 <= i < |Collapse(s)| - 1 ==> !(Collapse(s)[i] == SEPARATOR && Collapse(s)[i + 1] == SEPARATOR)
    decreases |s|
  {
    if |s| > 1 {
      CollapseNormal(s[1..]);
      if !(s[0] == SEPARATOR && s[1] == SEPARATOR) {
        var r := [s[0]] + Collapse(s[1..]);
        forall i | 0 <= i < |r| - 1
          ensures !(r[i] == SEPARATOR && r[i + 1] == SEPARATOR)
        {
          if i > 0 {
            assert r[i] == Collapse(s[1..])[i - 1];
          }
        }
      }
    }
  }

  lemma {:induction false} CollapseIdentity(s: string)
    requires forall i :: 0 <= i < |s| - 1 ==> !(s[i] == SEPARATOR && s[i + 1] == SEPARATOR)
    ensures Collapse(s) == s
    decreases |s|
  {
    if |s| > 1 {
      var t := s[1..];
      forall i | 0 <= i < |t| - 1
        ensures !(t[i] == SEPARATOR && t[i + 1] == SEPARATOR)
      {
        assert t[i] == s[i + 1] && t[i + 1] == s[i + 2];
      }
      CollapseIdentity(t);
      assert !(s[0] == SEPARATOR && s[1] == SEPARATOR);
      assert s == [s[0]] + t;
    }
  }

  /** Collapsing runs of separators keeps the names. */
  lemma {:induction false} CollapseNames(s: string, current: string)
    ensures NamesFrom(Collapse(s), current) == NamesFrom(s, current)
    decreases |s|
  {
    if |s| > 1 {
      var t := s[1..];
      if s[0] == SEPARATOR && s[1] == SEPARATOR {
        CollapseNames(t, current);
        assert t[0] == SEPARATOR && t[1..] == s[2..];
        assert NamesFrom(t, "") == NamesFrom(s[2..], "");
      } else {
        var c := [s[0]] + Collapse(t);
        assert c[0] == s[0] && c[1..] == Collapse(t);
        if s[0] == SEPARATOR {
          CollapseNames(t, "");
        } else {
          CollapseNames(t, current + [s[0]]);
        }
      }
    }
  }

  /** A trailing separator adds no name. */
  lemma {:induction false} TrailingSeparatorNames(p: string, current: string)
    ensures NamesFrom(p + [SEPARATOR], current) == NamesFrom(p, current)
    decreases |p|
  {
    var s := p + [SEPARATOR];
    if |p| == 0 {
      assert s[1..] == [];
    } else {
      assert s[0] == p[0] && s[1..] == p[1..] + [SEPARATOR];
      if p[0] == SEPARATOR {
        TrailingSeparatorNames(p[1..], "");
      } else {
        TrailingSeparatorNames(p[1..], current + [p[0]]);
      }
    }
  }

  /** Normalising keeps the names. */
  lemma NormalizeNames(s: string)
    ensures Names(Normalize(s)) == Names(s)
  {
    var c := Collapse(s);
    CollapseNames(s, "");
    if |c| > 1 && c[|c| - 1] == SEPARATOR {
      assert c == c[..|c| - 1] + [SEPARATOR];
      TrailingSeparatorNames(c[..|c| - 1], "");
    }
  }

  /** Normalisation yields a normal form and leaves a normal form alone, so
      normalising twice is normalising once; it keeps the names and whether the
      path is absolute, dropping only redundant separators. */
  lemma NormalizeSpec(s: string)
    ensures Normalized(Normalize(s))
    ensures Normalized(s) ==> Normalize(s) == s
    ensures Normalize(Normalize(s)) == Normalize(s)
    ensures Names(Normalize(s)) == Names(s)
    ensures IsAbsolute(Normalize(s)) <==> IsAbsolute(s)
  {
    assert Names(Normalize(s)) == Names(s) by {
      NormalizeNames(s);
    }
    var c := Collapse(s);
    CollapseNormal(s);
    var r := StripTrailing(c);
    assert forall i :: 0 <= i < |r| ==> r[i] == c[i];
    assert Normalized(r) by {
      if |c| > 1 && c[|c| - 1] == SEPARATOR {
        assert r[|r| - 1] == c[|c| - 2];
      }
    }
    if Normalized(s) {
      CollapseIdentity(s);
    }
    CollapseIdentity(r);
  }

  /** Text with no doubled and no trailing separator, read after the name `current`
      (which must be non-empty when the text opens with a separator), is given back
      by joining its names. */
  lemma {:induction false} NamesRebuild(s: string, current: string)
    requires forall i :: 0 <= i < |s| - 1 ==> !(s[i] == SEPARATOR && s[i + 1] == SEPARATOR)
    requires |s| > 0 ==> s[|s| - 1] != SEPARATOR
    requires |s| > 0 && s[0] == SEPARATOR ==> current != ""
    ensures JoinNames(NamesFrom(s, current)) == current + s
    decreases |s|
  {
    if |s| > 0 {
      var t := s[1..];
      assert forall i :: 0 <= i < |t| - 1 ==> !(t[i] == SEPARATOR && t[i + 1] == SEPARATOR) by {
        assert forall i :: 0 <= i < |t| ==> t[i] == s[i + 1];
      }
      assert s == [s[0]] + t;
      if s[0] == SEPARATOR {
        assert |t| > 0 && t[0] != SEPARATOR && t[|t| - 1] != SEPARATOR;
        var rest := NamesFrom(t, "");
        assert JoinNames(rest) == t by {
          NamesRebuild(t, "");
        }
        assert NamesFrom(s, current) == [current] + rest;
        assert JoinNames([current] + rest) == current + [SEPARATOR] + t by {
          var all := [current] + rest;
          assert rest != [];
          assert all[0] == current && all[1..] == rest;
        }
        ConcatAssoc(current, [SEPARATOR], t);
      } else {
        assert JoinNames(NamesFrom(t, current + [s[0]])) == current + [s[0]] + t by {
          NamesRebuild(t, current + [s[0]]);
        }
        ConcatAssoc(current, [s[0]], t);
      }
    }
  }

  /** A normal path is its names joined, behind a separator when it is absolute. */
  lemma NormalRebuilt(a: string)
    requires Normalized(a)
    ensures a == (if IsAbsolute(a) then "/" else "") + JoinNames(Names(a))
  {
    if IsAbsolute(a) {
      var t := a[1..];
      assert forall i :: 0 <= i < |t| ==> t[i] == a[i + 1];
      assert |t| > 0 ==> t[0] != SEPARATOR && t[|t| - 1] == a[|a| - 1];
      NamesRebuild(t, "");
      assert Names(a) == NamesFrom(t, "");
      assert a == "/" + t;
    } else {
      NamesRebuild(a, "");
      assert "" + a == a;
    }
  }

  /** `Normalize(s)` is the only normal path with the names of `s` that is absolute
      exactly when `s` is. */
  lemma NormalizeCharacterised(s: string, t: string)
    requires Normalized(t) && Names(t) == Names(s) && (IsAbsolute(t) <==> IsAbsolute(s))
    ensures t == Normalize(s)
  {
    NormalizeSpec(s);
    NormalRebuilt(t);
    NormalRebuilt(Normalize(s));
  }

  /** "ab//cd/" has the names "ab" and "cd" and normalises to "ab/cd". */
  lemma NormalizeExample()
    ensures Names("ab//cd/") == ["ab", "cd"]
    ensures Normalize("ab//cd/") == "ab/cd"
  {
    var t := "ab/cd";
    assert NamesFrom("cd", "") == ["cd"] by {
      assert "cd"[1..] == "d" && "" + ['c'] == "c";
      assert "d"[1..] == "" && "c" + ['d'] == "cd";
    }
    assert Names(t) == ["ab", "cd"] by {
      assert t[1..] == "b/cd" && "" + ['a'] == "a";
      assert "b/cd"[1..] == "/cd" && "a" + ['b'] == "ab";
      assert "/cd"[1..] == "cd";
    }
    assert Names("ab//cd/") == ["ab", "cd"] by {
      assert NamesFrom("cd/", "") == ["cd"] by {
        assert "cd/"[1..] == "d/" && "" + ['c'] == "c";
        assert "d/"[1..] == "/" && "c" + ['d'] == "cd";
        assert "/"[1..] == "";
      }
      assert "ab//cd/"[1..] == "b//cd/" && "" + ['a'] == "a";
      assert "b//cd/"[1..] == "//cd/" && "a" + ['b'] == "ab";
      assert "//cd/"[1..] == "/cd/" && "/cd/"[1..] == "cd/";
    }
    assert forall i :: 0 <= i < |t| && t[i] == SEPARATOR ==> i == 2;
    NormalizeCharacterised("ab//cd/", t);
  }

  /** A child path is absolute exactly when its parent is empty or absolute. */
  lemma ChildAbsolute(parent: string, child: string)
    ensures IsAbsolute(Child(parent, child)) <==> |parent| == 0 || IsAbsolute(parent)
  {
  }

  /** A name without separators is in normal form. */
  lemma NoSeparatorNormalized(s: string)
    requires SEPARATOR !in s
    ensures Normalized(s)
  {
    assert forall i :: 0 <= i < |s| ==> s[i] in s;
  }

  /** Joining a normal parent other than the root with a normal relative name puts
      exactly one separator between them, and the result is in normal form. */
  lemma ChildInsertsOneSeparator(parent: string, child: string)
    requires Normalized(parent) && parent != "" && parent != "/"
    requires Normalized(child) && child != "" && child[0] != SEPARATOR
    ensures Child(parent, child) == parent + "/" + child
    ensures Normalized(parent + "/" + child)
  {
    NormalizeSpec(parent);
    NormalizeSpec(child);
    var r := parent + "/" + child;
    var n := |parent|;
    assert parent[n - 1] != SEPARATOR;
    forall i | 0 <= i < |r| - 1
      ensures !(r[i] == SEPARATOR && r[i + 1] == SEPARATOR)
    {
      if i < n - 1 {
        assert r[i] == parent[i] && r[i + 1] == parent[i + 1];
      } else if i == n - 1 {
        assert r[i] == parent[n - 1];
      } else if i == n {
        assert r[i + 1] == child[0];
      } else {
        assert r[i] == child[i - n - 1] && r[i + 1] == child[i - n];
      }
    }
    assert r[|r| - 1] == child[|child| - 1];
  }

  /** A child built from a name that does not end in a separator contains a
      separator and ends in that name's last character. */
  lemma ChildShape(parent: string, child: string)
    requires |child| > 0 && child[|child| - 1] != SEPARATOR
    ensures var path := Child(parent, child);
      |path| > 1 && SEPARATOR in path && path[|path| - 1] == child[|child| - 1]
  {
    var c := Normalize(child);
    var path := Child(parent, child);
    var p := if |parent| == 0 then "/" else Normalize(parent);
    assert path == ResolveChild(p, c);
    assert |p| > 0;
    if c[0] == SEPARATOR {
      assert path == c || path == p + c;
      assert SEPARATOR in path by {
        if path == c {
          assert path[0] == SEPARATOR;
        } else {
          assert path[|p|] == SEPARATOR;
        }
      }
      assert |path| > 1 by {
        if path == c {
          assert |c| > 1 || c[|c| - 1] != SEPARATOR;
        }
      }
    } else if p == "/" {
      assert path[0] == SEPARATOR;
    } else {
      assert path[|p|] == SEPARATOR;
    }
  }

  /** Such a path always has a parent. */
  lemma ParentExists(path: string)
    requires |path| > 1 && SEPARATOR in path
    ensures Parent(path).Some?
  {
  }
}
