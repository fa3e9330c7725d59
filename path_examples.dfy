/**
  Two of the library's `Path.Combine` test cases, derived from the general lemmas: the
  arguments are joins of separator-free pieces, so they split back into those pieces, and
  the result is the join of the resolved stack.
*/
module PathExamples {
  import opened FilePath

  /** Untouched by the trims: no white space or separator at either end. */
  predicate Plain(s: string) {
    |s| > 0 && !IsWhiteSpace(s[0]) && s[0] != Separator
    && !IsWhiteSpace(s[|s| - 1]) && s[|s| - 1] != Separator
  }

  lemma PlainNormalized(s: string)
    requires Plain(s)
    ensures NormalizePath(s) == s && NormalizedRoot(s) == s
  {
  }

  /** Separator-free pieces whose joins are plain combine to the join of the resolved stack. */
  lemma CombinePieces(rs: seq<string>, ps: seq<string>)
    requires forall i :: 0 <= i < |rs| ==> Separator !in rs[i]
    requires forall i :: 0 <= i < |ps| ==> Separator !in ps[i]
    requires Plain(Join(rs)) && Plain(Join(ps))
    ensures Combined(Join(rs), Join(ps)) == Join(Resolve(rs, ps))
  {
    PlainNormalized(Join(rs));
    PlainNormalized(Join(ps));
    SplitJoin(rs);
    SplitJoin(ps);
  }

  // `CombineBackTooFar`: root `c:\home`, relative `..\..\..\home`, result `home`.

  lemma BackTooFarPieces()
    ensures Join(["c:", "home"]) == "c:\\home"
    ensures Join(["..", "..", "..", "home"]) == "..\\..\\..\\home"
    ensures Plain("c:\\home") && Plain("..\\..\\..\\home")
  {
  }

  lemma BackTooFarResolved()
    ensures Resolve(["c:", "home"], ["..", "..", "..", "home"]) == ["home"]
  {
    var ps := ["..", "..", "..", "home"];
    assert ps[..3] == ["..", "..", ".."] && ps[..3][..2] == ["..", ".."];
    assert ps[..3][..2][..1] == [".."] && ps[..3][..2][..1][..0] == [];
    assert Resolve(["c:", "home"], [".."]) == ["c:"];
    assert Resolve(["c:", "home"], ["..", ".."]) == [];
    assert Resolve(["c:", "home"], ["..", "..", ".."]) == [];
    assert "home" != BackToken;
  }

  /** Going back past the root discards it: the extra `..` are ignored on the empty stack. */
  lemma CombineBackTooFar(root: string, relative: string)
    requires root == "c:\\home" && relative == "..\\..\\..\\home"
    ensures Combined(root, relative) == "home"
  {
    BackTooFarPieces();
    CombinePieces(["c:", "home"], ["..", "..", "..", "home"]);
    BackTooFarResolved();
  }

  // `Combine1`: root `c:\home\sub\one`, relative `..\two`, result `c:\home\sub\two`.

  lemma OneBackRoot()
    ensures Join(["c:", "home", "sub", "one"]) == "c:\\home\\sub\\one"
    ensures Plain("c:\\home\\sub\\one")
  {
  }

  lemma OneBackRelative()
    ensures Join(["..", "two"]) == "..\\two" && Plain("..\\two")
  {
  }

  lemma OneBackResult()
    ensures Join(["c:", "home", "sub", "two"]) == "c:\\home\\sub\\two"
  {
  }

  lemma OneBackResolved()
    ensures Resolve(["c:", "home", "sub", "one"], ["..", "two"]) == ["c:", "home", "sub", "two"]
  {
    var ps := ["..", "two"];
    assert ps[..1] == [".."] && ps[..1][..0] == [];
    assert Resolve(["c:", "home", "sub", "one"], [".."]) == ["c:", "home", "sub"];
    assert "two" != BackToken;
  }

  /** One `..` replaces the root's last segment. */
  lemma CombineOneBack(root: string, relative: string)
    requires root == "c:\\home\\sub\\one" && relative == "..\\two"
    ensures Combined(root, relative) == "c:\\home\\sub\\two"
  {
    OneBackRoot();
    OneBackRelative();
    OneBackResult();
    CombinePieces(["c:", "home", "sub", "one"], ["..", "two"]);
    OneBackResolved();
  }
}
