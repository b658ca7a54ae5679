/**
  The parts of Go's `path/filepath` on Unix that the dumper uses to name the
  host copy of a dump: `Base` and `Join`, and the lexical `Clean` behind `Join`.
*/
module FilePath {

  const Separator: char := '/'

  /** Index of the last separator in `s`, or -1 when there is none. */
  function LastSeparator(s: string): (i: int)
    ensures -1 <= i < |s|
    ensures i >= 0 ==> s[i] == Separator
    ensures forall j :: i < j < |s| ==> s[j] != Separator
  {
    if s == [] then -1
    else if s[|s| - 1] == Separator then |s| - 1
    else LastSeparator(s[..|s| - 1])
  }

  /** `strings.Split(s, "/")`: the texts between separators; always at least one. */
  function Split(s: string): (parts: seq<string>)
    ensures |parts| >= 1
    ensures forall k :: 0 <= k < |parts| ==> Separator !in parts[k]
    decreases |s|
  {
    var i := LastSeparator(s);
    TailAfterLastSeparator(s, i);
    if i < 0 then [s] else Split(s[..i]) + [s[i + 1..]]
  }

  lemma TailAfterLastSeparator(s: string, i: int)
    requires -1 <= i < |s|
    requires forall j :: i < j < |s| ==> s[j] != Separator
    ensures Separator !in s[i + 1..]
  {
    var tail := s[i + 1..];
    forall j | 0 <= j < |tail| ensures tail[j] != Separator {
      assert tail[j] == s[i + 1 + j];
    }
  }

  /** `strings.Join(parts, "/")`. */
  function JoinAll(parts: seq<string>): string {
    if parts == [] then ""
    else if |parts| == 1 then parts[0]
    else JoinAll(parts[..|parts| - 1]) + [Separator] + parts[|parts| - 1]
  }

  /** Splitting undoes joining when no part holds a separator. */
  lemma {:induction false} SplitJoinAll(parts: seq<string>)
    requires |parts| >= 1
    requires forall k :: 0 <= k < |parts| ==> Separator !in parts[k]
    ensures Split(JoinAll(parts)) == parts
  {
    if |parts| > 1 {
      var init := parts[..|parts| - 1];
      var last := parts[|parts| - 1];
      var s := JoinAll(init) + [Separator] + last;
      LastSeparatorOf(JoinAll(init), last);
      assert s[..|JoinAll(init)|] == JoinAll(init);
      assert s[|JoinAll(init)| + 1..] == last;
      SplitJoinAll(init);
    } else {
      assert Separator !in parts[0];
    }
  }

  /** Joining undoes splitting. */
  lemma {:induction false} JoinAllSplit(s: string)
    ensures JoinAll(Split(s)) == s
    decreases |s|
  {
    var i := LastSeparator(s);
    if i >= 0 {
      JoinAllSplit(s[..i]);
      var parts := Split(s);
      assert parts[..|parts| - 1] == Split(s[..i]);
      assert s == s[..i] + [Separator] + s[i + 1..];
    }
  }

  lemma LastSeparatorOf(a: string, b: string)
    requires Separator !in b
    ensures LastSeparator(a + [Separator] + b) == |a|
  {
    LastSeparatorFree(a + [Separator], b);
  }

  lemma {:induction false} LastSeparatorFree(a: string, b: string)
    requires Separator !in b
    ensures LastSeparator(a + b) == LastSeparator(a)
    decreases |b|
  {
    if b == [] {
      assert a + b == a;
    } else {
      var s := a + b;
      assert s[|s| - 1] == b[|b| - 1];
      assert s[..|s| - 1] == a + b[..|b| - 1];
      LastSeparatorFree(a, b[..|b| - 1]);
    }
  }

  /** A single path element that `Clean` keeps as it is. */
  predicate IsPlainName(e: string) {
    |e| > 0 && Separator !in e && e != "." && e != ".."
  }

  /**
    The lexical rules of `filepath.Clean` applied to the elements of a path, left
    to right: empty and "." elements vanish, ".." removes the element before it,
    and a ".." that has nothing to remove stays (relative path) or vanishes
    (rooted path).
  */
  function Lexical(elems: seq<string>, rooted: bool): (acc: seq<string>)
    requires forall k :: 0 <= k < |elems| ==> Separator !in elems[k]
    ensures forall k :: 0 <= k < |acc| ==> acc[k] == ".." || IsPlainName(acc[k])
    ensures rooted ==> forall k :: 0 <= k < |acc| ==> acc[k] != ".."
    ensures forall j, k :: 0 <= j < k < |acc| && acc[k] == ".." ==> acc[j] == ".."
    decreases |elems|
  {
    if elems == [] then []
    else
      var acc := Lexical(elems[..|elems| - 1], rooted);
      var e := elems[|elems| - 1];
      if e == "" || e == "." then acc
      else if e == ".." then
        if |acc| > 0 && acc[|acc| - 1] != ".." then acc[..|acc| - 1]
        else if rooted then acc
        else acc + [".."]
      else acc + [e]
  }

  /** `filepath.Clean`: the shortest lexically equivalent path; "." for an empty result. */
  function Clean(p: string): (c: string)
    ensures |c| > 0
  {
    if p == "" then "."
    else
      var out := (if Rooted(p) then [Separator] else "") + JoinAll(Kept(p));
      if out == "" then "." else out
  }

  predicate Rooted(p: string) {
    |p| > 0 && p[0] == Separator
  }

  /** The elements of `p` that survive cleaning. */
  function Kept(p: string): seq<string> {
    Lexical(Split(p), Rooted(p))
  }

  /** `filepath.Join(a, b)`: the non-empty arguments joined by a separator, then cleaned. */
  function Join(a: string, b: string): string {
    if a != "" then Clean(a + [Separator] + b)
    else if b != "" then Clean(b)
    else ""
  }

  /** The path with every trailing separator removed. */
  function TrimTrailingSeparators(p: string): (q: string)
    ensures |q| <= |p| && q == p[..|q|]
    ensures q == [] || q[|q| - 1] != Separator
  {
    if |p| > 0 && p[|p| - 1] == Separator then TrimTrailingSeparators(p[..|p| - 1]) else p
  }

  /** `filepath.Base`: the last element, "." for the empty path, "/" for a path of separators. */
  function Base(p: string): (b: string)
    ensures |b| > 0
  {
    if p == "" then "."
    else
      var q := TrimTrailingSeparators(p);
      if q == "" then [Separator] else q[LastSeparator(q) + 1..]
  }

  /** The base of `dir/name` is `name`, whatever `dir` is. */
  lemma BaseOfChild(dir: string, name: string)
    requires |name| > 0 && Separator !in name
    ensures Base(dir + [Separator] + name) == name
  {
    var p := dir + [Separator] + name;
    assert p[|p| - 1] == name[|name| - 1];
    assert TrimTrailingSeparators(p) == p;
    LastSeparatorOf(dir, name);
    assert p[|dir| + 1..] == name;
  }

  lemma BaseOfName(name: string)
    requires |name| > 0 && Separator !in name
    ensures Base(name) == name
  {
    assert name[|name| - 1] != Separator;
    assert TrimTrailingSeparators(name) == name;
    LastSeparatorFree([], name);
    assert [] + name == name;
  }

  /** `Split(p + "/" + name)` adds exactly one element after those of `p`. */
  lemma SplitChild(p: string, name: string)
    requires Separator !in name
    ensures Split(p + [Separator] + name) == Split(p) + [name]
  {
    var s := p + [Separator] + name;
    LastSeparatorOf(p, name);
    assert s[..|p|] == p;
    assert s[|p| + 1..] == name;
  }

  lemma JoinAllSnoc(parts: seq<string>, name: string)
    requires parts != []
    ensures JoinAll(parts + [name]) == JoinAll(parts) + [Separator] + name
  {
    assert (parts + [name])[..|parts|] == parts;
  }

  lemma LexicalSnoc(elems: seq<string>, name: string, rooted: bool)
    requires forall k :: 0 <= k < |elems| ==> Separator !in elems[k]
    requires IsPlainName(name)
    ensures Lexical(elems + [name], rooted) == Lexical(elems, rooted) + [name]
  {
    assert (elems + [name])[..|elems|] == elems;
  }

  /** A non-empty list of kept elements never joins to "", "." or "/". */
  lemma {:induction false} JoinAllKept(acc: seq<string>)
    requires acc != []
    requires forall k :: 0 <= k < |acc| ==> acc[k] == ".." || IsPlainName(acc[k])
    ensures |JoinAll(acc)| >= 1
    ensures JoinAll(acc) != "." && JoinAll(acc) != [Separator]
    ensures |acc| >= 2 ==> |JoinAll(acc)| >= 3
  {
    if |acc| >= 2 {
      JoinAllKept(acc[..|acc| - 1]);
    }
  }

  /** Cleaning `dir/name` keeps the elements of `dir` and appends `name`. */
  lemma KeptChild(dir: string, name: string)
    requires dir != "" && IsPlainName(name)
    ensures Rooted(dir + [Separator] + name) == Rooted(dir)
    ensures Kept(dir + [Separator] + name) == Kept(dir) + [name]
  {
    var p := dir + [Separator] + name;
    assert p[0] == dir[0];
    SplitChild(dir, name);
    LexicalSnoc(Split(dir), name, Rooted(dir));
  }

  lemma JoinEmptyDir(name: string)
    requires IsPlainName(name)
    ensures Join("", name) == name
  {
    assert Split(name) == [name] by { LastSeparatorFree([], name); assert [] + name == name; }
    LexicalSnoc([], name, false);
    assert [] + [name] == [name];
  }

  lemma JoinNothingKept(dir: string, name: string)
    requires dir != "" && IsPlainName(name) && Kept(dir) == []
    ensures Rooted(dir) ==> Clean(dir) == [Separator] && Join(dir, name) == [Separator] + name
    ensures !Rooted(dir) ==> Clean(dir) == "." && Join(dir, name) == name
  {
    KeptChild(dir, name);
    assert JoinAll(Kept(dir)) == "";
    assert JoinAll(Kept(dir) + [name]) == name;
  }

  /** With some element kept, cleaning adds no "." and only the root's separator in front. */
  lemma CleanKept(p: string)
    requires p != "" && Kept(p) != []
    ensures Clean(p) == (if Rooted(p) then [Separator] else "") + JoinAll(Kept(p))
  {
    JoinAllKept(Kept(p));
  }

  lemma CleanKeptNotTrivial(dir: string)
    requires dir != "" && Kept(dir) != []
    ensures Clean(dir) != "." && Clean(dir) != [Separator]
  {
    CleanKept(dir);
    JoinAllKept(Kept(dir));
    if Rooted(dir) {
      assert |Clean(dir)| >= 2;
    }
  }

  /** Cleaning `dir/name` puts `name` after the cleaned elements of `dir`. */
  lemma CleanChild(dir: string, name: string)
    requires dir != "" && IsPlainName(name) && Kept(dir) != []
    ensures Clean(dir + [Separator] + name)
      == (if Rooted(dir) then [Separator] else "") + (JoinAll(Kept(dir)) + [Separator] + name)
  {
    var p := dir + [Separator] + name;
    KeptChild(dir, name);
    CleanKept(p);
    JoinAllSnoc(Kept(dir), name);
  }

  lemma ChildAssoc(pre: string, acc: string, name: string)
    ensures pre + (acc + [Separator] + name) == (pre + acc) + [Separator] + name
  {
  }

  lemma JoinSomethingKept(dir: string, name: string)
    requires dir != "" && IsPlainName(name) && Kept(dir) != []
    ensures Join(dir, name) == Clean(dir) + [Separator] + name
  {
    var acc := JoinAll(Kept(dir));
    var pre: string := if Rooted(dir) then [Separator] else "";
    var child := dir + [Separator] + name;
    assert Clean(dir) == pre + acc by {
      CleanKept(dir);
    }
    assert Clean(child) == pre + (acc + [Separator] + name) by {
      CleanChild(dir, name);
    }
    ChildAssoc(pre, acc, name);
    assert Join(dir, name) == Clean(child);
  }

  /**
    Joining a plain name onto a directory appends it to the cleaned directory,
    with no separator doubled and no "./" in front.
  */
  lemma JoinPlainName(dir: string, name: string)
    requires IsPlainName(name)
    ensures Join(dir, name) ==
      if dir == "" || Clean(dir) == "." then name
      else if Clean(dir) == [Separator] then [Separator] + name
      else Clean(dir) + [Separator] + name
  {
    if dir == "" {
      JoinEmptyDir(name);
    } else if Kept(dir) == [] {
      JoinNothingKept(dir, name);
    } else {
      CleanKeptNotTrivial(dir);
      JoinSomethingKept(dir, name);
    }
  }

  lemma BaseOfRootChild(name: string)
    requires IsPlainName(name)
    ensures Base([Separator] + name) == name
  {
    BaseOfChild([], name);
    assert [] + [Separator] + name == [Separator] + name;
  }

  /** The base of `Join(dir, name)` is `name` for every directory. */
  lemma BaseOfJoin(dir: string, name: string)
    requires IsPlainName(name)
    ensures Base(Join(dir, name)) == name
  {
    JoinPlainName(dir, name);
    if dir == "" || Clean(dir) == "." {
      BaseOfName(name);
    } else if Clean(dir) == [Separator] {
      BaseOfRootChild(name);
    } else {
      BaseOfChild(Clean(dir), name);
    }
  }
}
