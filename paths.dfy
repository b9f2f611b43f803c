/** The part of `pathlib.PurePosixPath` that the extractor's input check uses:
    the final component of a path (`name`), its extension (`suffix`), and
    Python's substring test `needle in hay`. */
module Paths {

  /** Python's `str.rfind` for one character: the index of the last `c` in
      `s`, or -1 when `s` has none. */
  function RFind(s: string, c: char): (i: int)
    ensures -1 <= i < |s|
    ensures i >= 0 ==> s[i] == c
    ensures forall k :: i < k < |s| ==> s[k] != c
    decreases |s|
  {
    if s == [] then -1
    else if s[|s| - 1] == c then |s| - 1
    else RFind(s[..|s| - 1], c)
  }

  /** `PurePosixPath(path).name`: the last component of the path. Empty
      components (repeated or trailing '/') and "." components are dropped
      when pathlib parses a path, so they never become the name. */
  function Name(path: string): (name: string)
    ensures '/' !in name && name != "."
    ensures |name| <= |path|
    decreases |path|
  {
    var cut := RFind(path, '/');
    var last := path[cut + 1..];
    if last != "" && last != "." then last
    else if cut < 0 then []
    else Name(path[..cut])
  }

  /** `PurePath.suffix`: from the last '.' of the name to its end, provided
      that dot is neither the first nor the last character of the name;
      otherwise the empty string. */
  function Suffix(name: string): (ext: string)
    ensures ext == [] || (2 <= |ext| < |name| && ext[0] == '.' && '.' !in ext[1..])
    ensures ext == name[|name| - |ext|..]
  {
    var i := RFind(name, '.');
    if 0 < i < |name| - 1 then name[i..] else []
  }

  /** `needle` occurs in `hay` starting at index `i`. */
  predicate OccursAt(needle: string, hay: string, i: int)
  {
    0 <= i && i + |needle| <= |hay| && hay[i..i + |needle|] == needle
  }

  /** Python's `needle in hay` on two strings. */
  function Contains(hay: string, needle: string): (b: bool)
    ensures b <==> exists i :: OccursAt(needle, hay, i)
    decreases |hay|
  {
    if |hay| < |needle| then false
    else if hay[..|needle|] == needle then
      assert OccursAt(needle, hay, 0);
      true
    else
      var b := Contains(hay[1..], needle);
      assert forall i :: OccursAt(needle, hay[1..], i) <==> OccursAt(needle, hay, i + 1) by {
        forall i ensures OccursAt(needle, hay[1..], i) <==> OccursAt(needle, hay, i + 1) {
          if 0 <= i && i + |needle| <= |hay[1..]| {
            assert hay[1..][i..i + |needle|] == hay[i + 1..i + 1 + |needle|];
          }
        }
      }
      assert !OccursAt(needle, hay, 0);
      assert b ==> exists i :: OccursAt(needle, hay, i) by {
        if b {
          var i :| OccursAt(needle, hay[1..], i);
          assert OccursAt(needle, hay, i + 1);
        }
      }
      assert (exists i :: OccursAt(needle, hay, i)) ==> b by {
        if exists i :: OccursAt(needle, hay, i) {
          var i :| OccursAt(needle, hay, i);
          assert i != 0;
          assert OccursAt(needle, hay[1..], i - 1);
        }
      }
      b
  }

  /** A non-empty needle whose first character is absent from `hay` does not
      occur in it. */
  lemma NotContainedWithoutFirstChar(hay: string, needle: string)
    requires needle != [] && needle[0] !in hay
    ensures !Contains(hay, needle)
  {
  }

  /** A path with no '/' is its own name. */
  lemma NameOfBare(file: string)
    requires file != [] && file != "." && '/' !in file
    ensures Name(file) == file
  {
  }

  /** A trailing '/' or a trailing "." component does not change the name. */
  lemma NameDropsTrailing(p: string)
    ensures Name(p + "/") == Name(p)
    ensures Name(p + "/.") == Name(p)
  {
    var q := p + "/";
    assert RFind(q, '/') == |p|;
    assert q[..|p|] == p;
    var r := p + "/.";
    assert r[|p|] == '/' && r[|p| + 1] == '.';
    assert RFind(r, '/') == |p|;
    assert r[|p| + 1..] == ".";
    assert r[..|p|] == p;
  }

  /** The name of `dir/file` is `file`, whatever the directory part holds. */
  lemma NameOfJoin(dir: string, file: string)
    requires file != [] && file != "." && '/' !in file
    ensures Name(dir + "/" + file) == file
  {
    var path := dir + "/" + file;
    var cut := RFind(path, '/');
    assert path[|dir|] == '/';
    assert forall k :: |dir| < k < |path| ==> path[k] == file[k - |dir| - 1];
    assert cut == |dir|;
    assert path[cut + 1..] == file;
  }

  /** A name made of a non-empty stem, a dot and a dot-free, non-empty
      extension has that dotted extension as its suffix. */
  lemma SuffixOfStem(stem: string, ext: string)
    requires stem != [] && ext != [] && '.' !in ext
    ensures Suffix(stem + "." + ext) == "." + ext
  {
    var name := stem + "." + ext;
    var i := RFind(name, '.');
    assert name[|stem|] == '.';
    assert forall k :: |stem| < k < |name| ==> name[k] == ext[k - |stem| - 1];
    assert i == |stem|;
    assert name[i..] == "." + ext;
  }

  /** The suffix of `dir/stem.ext` is `.ext`, whatever the directory holds. */
  lemma SuffixOfFile(dir: string, stem: string, ext: string)
    requires stem != [] && '/' !in stem && '.' !in stem
    requires ext != [] && '/' !in ext && '.' !in ext
    ensures Suffix(Name(dir + "/" + stem + "." + ext)) == "." + ext
  {
    var dotExt := "." + ext;
    var name := stem + dotExt;
    assert stem + "." + ext == name;
    assert dir + "/" + stem + "." + ext == dir + "/" + name;
    assert '/' !in dotExt;
    assert '/' !in name;
    NameOfJoin(dir, name);
    SuffixOfStem(stem, ext);
  }

  /** A name whose only dot is its first character ("dotfile") has no suffix. */
  lemma DotfileHasNoSuffix(rest: string)
    requires '.' !in rest
    ensures Suffix("." + rest) == []
  {
    var name := "." + rest;
    assert forall k :: 0 < k < |name| ==> name[k] == rest[k - 1] && rest[k - 1] in rest;
    assert name[0] == '.';
    assert RFind(name, '.') == 0;
  }

  /** A name that ends with a dot has no suffix. */
  lemma TrailingDotHasNoSuffix(stem: string)
    ensures Suffix(stem + ".") == []
  {
    var name := stem + ".";
    assert name[|name| - 1] == '.';
    assert RFind(name, '.') == |name| - 1;
  }
}
