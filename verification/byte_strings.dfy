/**
 Byte strings. Go's `string` and `[]byte` are both sequences of bytes; here a byte is a
 character below 256, so string literals such as "OK" are byte strings as they stand.
 */
module ByteStrings {

  type Byte = c: char | (c as int) < 256 witness 'A'
  type Bytes = seq<Byte>

  /** `startsWith` of cdc/maxscale_reader.go: the line is at least as long as the prefix and begins with it. */
  function StartsWith(line: Bytes, prefix: Bytes): (r: bool)
    ensures |prefix| == 0 ==> r
    ensures |prefix| > |line| ==> !r
  {
    if |line| < |prefix| then false else line[..|prefix|] == prefix
  }

  /** `StartsWith` agrees with the definition by concatenation: the line is the prefix followed by something. */
  lemma StartsWithIffConcat(line: Bytes, prefix: Bytes)
    ensures StartsWith(line, prefix) <==> exists rest :: line == prefix + rest
  {
    if StartsWith(line, prefix) {
      assert line == prefix + line[|prefix|..];
    }
    if exists rest :: line == prefix + rest {
      var rest :| line == prefix + rest;
      assert line[..|prefix|] == prefix;
    }
  }

  /** `a` is a prefix of `b`. */
  predicate IsPrefix<T(==)>(a: seq<T>, b: seq<T>)
  {
    |a| <= |b| && b[..|a|] == a
  }

  /** The concatenation of a list of byte strings, as they appear one after another on a stream. */
  function Concat(parts: seq<Bytes>): (r: Bytes)
  {
    if |parts| == 0 then [] else parts[0] + Concat(parts[1..])
  }

  lemma {:induction false} ConcatAppend(a: seq<Bytes>, b: seq<Bytes>)
    ensures Concat(a + b) == Concat(a) + Concat(b)
  {
    if |a| == 0 {
      assert a + b == b;
    } else {
      assert (a + b)[1..] == a[1..] + b;
      ConcatAppend(a[1..], b);
    }
  }

  /** The position of the first occurrence of `b` in `s`. */
  function IndexOf(s: Bytes, b: Byte): (i: nat)
    requires b in s
    ensures i < |s| && s[i] == b && b !in s[..i]
  {
    if s[0] == b then 0 else 1 + IndexOf(s[1..], b)
  }

  /**
   Go's `strings.Split(s, sep)` for a one-byte separator: the pieces between separators,
   in order, one more piece than there are separators.
   */
  function Split(s: Bytes, sep: Byte): (parts: seq<Bytes>)
    ensures |parts| >= 1
    ensures forall k | 0 <= k < |parts| :: sep !in parts[k]
    ensures Join(parts, sep) == s
    decreases |s|
  {
    if sep !in s then [s]
    else
      var i := IndexOf(s, sep);
      var rest := Split(s[i + 1..], sep);
      assert s == s[..i] + [sep] + s[i + 1..];
      [s[..i]] + rest
  }

  /** Go's `strings.Join(parts, sep)`. */
  function Join(parts: seq<Bytes>, sep: Byte): Bytes
  {
    if |parts| == 0 then []
    else if |parts| == 1 then parts[0]
    else parts[0] + [sep] + Join(parts[1..], sep)
  }

  /** Splitting a join of separator-free pieces gives the pieces back. */
  lemma {:induction false} SplitJoin(parts: seq<Bytes>, sep: Byte)
    requires |parts| >= 1
    requires forall k | 0 <= k < |parts| :: sep !in parts[k]
    ensures Split(Join(parts, sep), sep) == parts
  {
    if |parts| == 1 {
    } else {
      var s := Join(parts, sep);
      assert s == parts[0] + [sep] + Join(parts[1..], sep);
      assert sep in s by { assert s[|parts[0]|] == sep; }
      var i := IndexOf(s, sep);
      assert s[..|parts[0]|] == parts[0];
      assert i == |parts[0]|;
      assert s[..i] == parts[0];
      assert s[i + 1..] == Join(parts[1..], sep);
      SplitJoin(parts[1..], sep);
      assert parts == [parts[0]] + parts[1..];
    }
  }

  /** Two separator-free pieces joined by the separator split back into those two pieces. */
  lemma SplitPair(a: Bytes, b: Bytes, sep: Byte)
    requires sep !in a && sep !in b
    ensures Split(a + [sep] + b, sep) == [a, b]
  {
    assert [a, b][1..] == [b];
    SplitJoin([a, b], sep);
  }

  /** Three separator-free pieces joined by the separator split back into those three pieces. */
  lemma SplitTriple(a: Bytes, b: Bytes, c: Bytes, sep: Byte)
    requires sep !in a && sep !in b && sep !in c
    ensures Split(a + [sep] + b + [sep] + c, sep) == [a, b, c]
  {
    var parts := [a, b, c];
    assert parts[1..] == [b, c];
    assert Join([b, c], sep) == b + [sep] + c by {
      assert [b, c][1..] == [c];
    }
    assert Join(parts, sep) == a + [sep] + (b + [sep] + c);
    assert a + [sep] + b + [sep] + c == a + [sep] + (b + [sep] + c);
    SplitJoin(parts, sep);
  }
}
