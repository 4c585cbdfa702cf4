/**
 Slash-separated paths as Go's `path` package treats them: `Clean` resolves ".", ".." and
 repeated slashes lexically, and `Join` glues elements with "/" and cleans the result.
 */
module Paths {
  import opened ByteStrings

  const Slash: Byte := '/'

  /** An element that names something: not empty, not ".", not "..". */
  predicate IsName(elem: Bytes)
  {
    elem != [] && elem != "." && elem != ".."
  }

  /** How `Clean` treats one element: "." and empty elements vanish, ".." backs up over a name. */
  function Step(out: seq<Bytes>, elem: Bytes, rooted: bool): seq<Bytes>
  {
    if elem == [] || elem == "." then out
    else if elem == ".." then
      if |out| > 0 && out[|out| - 1] != ".." then out[..|out| - 1]
      else if rooted then out
      else out + [".."]
    else out + [elem]
  }

  /** The elements left after applying `Step` to each input element in turn. */
  function Resolve(elems: seq<Bytes>, rooted: bool, out: seq<Bytes>): seq<Bytes>
    decreases |elems|
  {
    if |elems| == 0 then out else Resolve(elems[1..], rooted, Step(out, elems[0], rooted))
  }

  /** Go's `path.Clean`: the shortest equivalent path; "." for an empty result. */
  function Clean(p: Bytes): Bytes
  {
    if |p| == 0 then "."
    else
      var rooted := p[0] == Slash;
      var body := Join(Resolve(Split(p, Slash), rooted, []), Slash);
      if rooted then [Slash] + body
      else if |body| == 0 then "."
      else body
  }

  /** Go's `path.Join(dir, name)`: empty elements are skipped, the rest joined by "/" and cleaned. */
  function Join2(dir: Bytes, name: Bytes): Bytes
  {
    if |dir| + |name| == 0 then []
    else if |dir| == 0 then Clean(name)
    else Clean(dir + [Slash] + name)
  }

  /** A directory already in clean form: optionally rooted, then one or more names separated by single slashes. */
  predicate IsCleanDir(dir: Bytes)
  {
    forall k | 0 <= k < |Split(Relative(dir), Slash)| :: IsName(Split(Relative(dir), Slash)[k])
  }

  /** When the last element is a name, the resolved elements end with it. */
  lemma {:induction false} ResolveKeepsLastName(elems: seq<Bytes>, rooted: bool, out: seq<Bytes>, name: Bytes)
    requires |elems| > 0 && elems[|elems| - 1] == name && IsName(name)
    ensures |Resolve(elems, rooted, out)| > 0
    ensures Resolve(elems, rooted, out)[|Resolve(elems, rooted, out)| - 1] == name
  {
    if |elems| > 1 {
      ResolveKeepsLastName(elems[1..], rooted, Step(out, elems[0], rooted), name);
    }
  }

  /** Names pass through `Resolve` unchanged. */
  lemma {:induction false} ResolveNames(elems: seq<Bytes>, rooted: bool, out: seq<Bytes>)
    requires forall k | 0 <= k < |elems| :: IsName(elems[k])
    ensures Resolve(elems, rooted, out) == out + elems
  {
    if |elems| > 0 {
      ResolveNames(elems[1..], rooted, out + [elems[0]]);
      assert out + [elems[0]] + elems[1..] == out + elems;
    }
  }

  /** A join ends with its last part, preceded by the separator when there is more than one part. */
  lemma {:induction false} JoinEndsWithLast(parts: seq<Bytes>, sep: Byte)
    requires |parts| > 0
    ensures var j, last := Join(parts, sep), parts[|parts| - 1];
            |j| >= |last| && j[|j| - |last|..] == last
            && (|parts| > 1 ==> |j| > |last| && j[|j| - |last| - 1] == sep)
  {
    if |parts| > 1 {
      JoinEndsWithLast(parts[1..], sep);
    }
  }

  /** Joining two non-empty lists of parts puts one separator between them. */
  lemma {:induction false} JoinAppend(a: seq<Bytes>, b: seq<Bytes>, sep: Byte)
    requires |a| > 0 && |b| > 0
    ensures Join(a + b, sep) == Join(a, sep) + [sep] + Join(b, sep)
  {
    if |a| == 1 {
      assert (a + b)[1..] == b;
    } else {
      assert (a + b)[1..] == a[1..] + b;
      JoinAppend(a[1..], b, sep);
    }
  }

  /** Splitting at one separator splits each side independently. */
  lemma SplitAppend(a: Bytes, b: Bytes, sep: Byte)
    ensures Split(a + [sep] + b, sep) == Split(a, sep) + Split(b, sep)
  {
    var x, y := Split(a, sep), Split(b, sep);
    JoinAppend(x, y, sep);
    NoSeparatorInEither(x, y, sep);
    SplitJoin(x + y, sep);
  }

  lemma NoSeparatorInEither(x: seq<Bytes>, y: seq<Bytes>, sep: Byte)
    requires forall k | 0 <= k < |x| :: sep !in x[k]
    requires forall k | 0 <= k < |y| :: sep !in y[k]
    ensures forall k | 0 <= k < |x + y| :: sep !in (x + y)[k]
  {
    forall k | 0 <= k < |x + y| ensures sep !in (x + y)[k] {
      if k < |x| {
        assert (x + y)[k] == x[k];
      } else {
        assert (x + y)[k] == y[k - |x|];
      }
    }
  }

  /** `p` ends with the element `name`: it is `name` itself or ends with a slash and `name`. */
  predicate EndsWithElement(p: Bytes, name: Bytes)
  {
    p == name || (|p| > |name| && p[|p| - |name| - 1..] == [Slash] + name)
  }

  /** Cleaning keeps a final name element as the final element. */
  lemma CleanKeepsLastName(p: Bytes, name: Bytes)
    requires |p| > 0 && IsName(name)
    requires Split(p, Slash)[|Split(p, Slash)| - 1] == name
    ensures EndsWithElement(Clean(p), name)
  {
    LastSegment(Split(p, Slash), p[0] == Slash, name);
    var body := Join(Resolve(Split(p, Slash), p[0] == Slash, []), Slash);
    CleanShape(p, body);
    if p[0] == Slash {
      RootedKeepsElement(body, name);
    }
  }

  lemma LastSegment(elems: seq<Bytes>, rooted: bool, name: Bytes)
    requires |elems| > 0 && elems[|elems| - 1] == name && IsName(name)
    ensures var body := Join(Resolve(elems, rooted, []), Slash); |body| > 0 && EndsWithElement(body, name)
  {
    ResolveKeepsLastName(elems, rooted, [], name);
    JoinEndsWithName(Resolve(elems, rooted, []), name);
  }

  lemma JoinEndsWithName(segs: seq<Bytes>, name: Bytes)
    requires |segs| > 0 && segs[|segs| - 1] == name && IsName(name)
    ensures |Join(segs, Slash)| > 0 && EndsWithElement(Join(segs, Slash), name)
  {
    JoinEndsWithLast(segs, Slash);
    if |segs| == 1 {
      assert Join(segs, Slash) == segs[0];
    } else {
      SlashThenName(Join(segs, Slash), name);
    }
  }

  lemma SlashThenName(p: Bytes, name: Bytes)
    requires |p| > |name| && p[|p| - |name|..] == name && p[|p| - |name| - 1] == Slash
    ensures EndsWithElement(p, name)
  {
    assert p[|p| - |name| - 1..] == [p[|p| - |name| - 1]] + p[|p| - |name|..];
  }

  /** `Clean` of a path whose resolved elements join to a non-empty text. */
  lemma CleanShape(p: Bytes, body: Bytes)
    requires |p| > 0 && body == Join(Resolve(Split(p, Slash), p[0] == Slash, []), Slash) && |body| > 0
    ensures Clean(p) == if p[0] == Slash then [Slash] + body else body
  {
  }

  lemma RootedKeepsElement(body: Bytes, name: Bytes)
    requires EndsWithElement(body, name)
    ensures EndsWithElement([Slash] + body, name)
  {
    var c := [Slash] + body;
    if body == name {
      assert c[|c| - |name| - 1..] == c;
    } else {
      assert c[|c| - |name| - 1..] == body[|body| - |name| - 1..];
    }
  }

  /** The directory without its leading slash, if it has one. */
  function Relative(dir: Bytes): Bytes
  {
    if |dir| > 0 && dir[0] == Slash then dir[1..] else dir
  }

  /** The empty first element a leading slash produces when splitting. */
  function Lead(dir: Bytes): seq<Bytes>
  {
    if |dir| > 0 && dir[0] == Slash then [[]] else []
  }

  /** Joining a name onto a clean directory yields a path `Clean` leaves alone. */
  lemma CleanOfCleanDirJoin(dir: Bytes, name: Bytes)
    requires |dir| > 0 && IsCleanDir(dir) && IsName(name) && Slash !in name
    ensures Clean(dir + [Slash] + name) == dir + [Slash] + name
  {
    var rel := Relative(dir);
    var p := dir + [Slash] + name;
    var body := rel + [Slash] + name;
    assert Join(Resolve(Split(p, Slash), p[0] == Slash, []), Slash) == body by {
      var relElems := Split(rel, Slash);
      SplitOfDirJoin(dir, name, p);
      ResolveNamesOfDirJoin(dir, name);
      assert p[0] == dir[0];
      JoinAppend(relElems, [name], Slash);
    }
    CleanShape(p, body);
    if dir[0] == Slash {
      assert dir == [Slash] + rel;
    }
  }

  lemma SplitOfDirJoin(dir: Bytes, name: Bytes, p: Bytes)
    requires |dir| > 0 && Slash !in name && p == dir + [Slash] + name
    ensures Split(p, Slash) == Lead(dir) + (Split(Relative(dir), Slash) + [name])
  {
    if dir[0] == Slash {
      SplitOfRootedDirJoin(dir, name, p);
    } else {
      SplitOfRelativeDirJoin(dir, name, p);
      assert Lead(dir) == [];
    }
  }

  lemma SplitOfRootedDirJoin(dir: Bytes, name: Bytes, p: Bytes)
    requires |dir| > 0 && Slash !in name && p == dir + [Slash] + name && dir[0] == Slash
    ensures Split(p, Slash) == [[]] + (Split(dir[1..], Slash) + [name])
  {
    var rel := dir[1..];
    var q := rel + [Slash] + name;
    var e: Bytes := [];
    assert p == e + [Slash] + q by {
      assert dir == [Slash] + rel;
    }
    SplitOfName(name);
    SplitAppend(rel, name, Slash);
    assert Split(q, Slash) == Split(rel, Slash) + [name];
    SplitAppend(e, q, Slash);
    assert Split(e, Slash) == [[]];
  }

  lemma SplitOfRelativeDirJoin(dir: Bytes, name: Bytes, p: Bytes)
    requires |dir| > 0 && Slash !in name && p == dir + [Slash] + name
    ensures Split(p, Slash) == Split(dir, Slash) + [name]
  {
    SplitOfName(name);
    SplitAppend(dir, name, Slash);
  }

  lemma SplitOfName(name: Bytes)
    requires Slash !in name
    ensures Split(name, Slash) == [name]
  {
  }

  lemma ResolveNamesOfDirJoin(dir: Bytes, name: Bytes)
    requires |dir| > 0 && IsCleanDir(dir) && IsName(name)
    ensures Resolve(Lead(dir) + (Split(Relative(dir), Slash) + [name]), dir[0] == Slash, [])
            == Split(Relative(dir), Slash) + [name]
  {
    var rooted := dir[0] == Slash;
    var named := Split(Relative(dir), Slash) + [name];
    assert forall k | 0 <= k < |named| :: IsName(named[k]);
    ResolveNames(named, rooted, []);
    if rooted {
      var all := [[]] + named;
      assert all[1..] == named;
      assert Resolve(all, rooted, []) == Resolve(named, rooted, []);
    } else {
      assert Lead(dir) + named == named;
    }
  }
}
