/** Identifiers: strings of segments joined by a separator character, as
    `String.prototype.split` and `Array.prototype.join` treat them, and the
    mapping of an identifier to the URI of the file that defines it. */
module Identifiers {

  /** The argument of `use`: one identifier or an array of them. */
  datatype IdArg = One(id: string) | Many(ids: seq<string>)

  /** `_toArray`: an array stays as it is, anything else becomes a one-element array. */
  function ToArray(arg: IdArg): (ids: seq<string>)
    ensures arg.One? ==> ids == [arg.id]
    ensures arg.Many? ==> ids == arg.ids
  {
    match arg
    case One(id) => [id]
    case Many(ids) => ids
  }

  /** `_toArray` of an array is that array, so handing its result back to a
      function that calls `_toArray` again (as the re-entry of `use` on the rest
      of the list does) sees the same identifiers. */
  lemma ToArrayIdempotent(arg: IdArg)
    ensures ToArray(Many(ToArray(arg))) == ToArray(arg)
  {
  }

  /** `s.split(c)`: the pieces between occurrences of `c`; never empty (`"".split(c)` is `[""]`). */
  function Split(s: string, c: char): (parts: seq<string>)
    ensures |parts| >= 1
    decreases s
  {
    if s == [] then [""]
    else
      var rest := Split(s[1..], c);
      if s[0] == c then [""] + rest
      else [[s[0]] + rest[0]] + rest[1..]
  }

  /** `parts.join(c)`; the empty array joins to `""`. */
  function Join(parts: seq<string>, c: char): string
    decreases parts
  {
    if |parts| == 0 then ""
    else if |parts| == 1 then parts[0]
    else parts[0] + [c] + Join(parts[1..], c)
  }

  /** The lodash path of an identifier: lodash always splits on `.`, whatever
      separator the registry is configured with. */
  function DotPath(id: string): seq<string>
  {
    Split(id, '.')
  }

  /** Joining the pieces of a split gives the string back. */
  lemma {:induction false} JoinSplit(s: string, c: char)
    ensures Join(Split(s, c), c) == s
    decreases s
  {
    if s != [] {
      var rest := Split(s[1..], c);
      JoinSplit(s[1..], c);
      if s[0] == c {
        assert Split(s, c) == [""] + rest;
        assert ([""] + rest)[1..] == rest;
      } else if |rest| > 1 {
        var parts := Split(s, c);
        assert parts[1..] == rest[1..];
        assert Join(rest, c) == rest[0] + [c] + Join(rest[1..], c);
      }
    }
  }

  /** No piece of a split contains the separator. */
  lemma {:induction false} SplitPiecesAvoidSeparator(s: string, c: char)
    ensures forall k :: 0 <= k < |Split(s, c)| ==> c !in Split(s, c)[k]
    decreases s
  {
    if s != [] {
      SplitPiecesAvoidSeparator(s[1..], c);
      var rest := Split(s[1..], c);
      if s[0] != c {
        assert c !in rest[0];
        assert c !in [s[0]] + rest[0];
      }
    }
  }

  /** A string without the separator splits into itself alone. */
  lemma {:induction false} SplitWithoutSeparator(a: string, c: char)
    requires c !in a
    ensures Split(a, c) == [a]
    decreases a
  {
    if a != [] {
      SplitWithoutSeparator(a[1..], c);
      assert [a[0]] + a[1..] == a;
    }
  }

  /** Splitting `a ++ c ++ b` yields the pieces of `a` followed by those of `b`. */
  lemma {:induction false} SplitConcat(a: string, b: string, c: char)
    ensures Split(a + [c] + b, c) == Split(a, c) + Split(b, c)
    decreases a
  {
    if a == [] {
      assert a + [c] + b == [c] + b;
      assert ([c] + b)[1..] == b;
    } else {
      var s := a + [c] + b;
      assert s[1..] == a[1..] + [c] + b;
      SplitConcat(a[1..], b, c);
    }
  }

  /** Splitting a join of separator-free pieces gives the pieces back. */
  lemma {:induction false} SplitJoin(parts: seq<string>, c: char)
    requires |parts| >= 1
    requires forall k :: 0 <= k < |parts| ==> c !in parts[k]
    ensures Split(Join(parts, c), c) == parts
    decreases parts
  {
    if |parts| == 1 {
      SplitWithoutSeparator(parts[0], c);
    } else {
      SplitJoin(parts[1..], c);
      SplitConcat(parts[0], Join(parts[1..], c), c);
      SplitWithoutSeparator(parts[0], c);
      assert [parts[0]] + parts[1..] == parts;
    }
  }

  /** Joining with one more piece appends the separator and that piece. */
  lemma {:induction false} JoinSnoc(parts: seq<string>, x: string, c: char)
    requires |parts| >= 1
    ensures Join(parts + [x], c) == Join(parts, c) + [c] + x
    decreases parts
  {
    if |parts| > 1 {
      assert (parts + [x])[1..] == parts[1..] + [x];
      JoinSnoc(parts[1..], x, c);
    }
  }

  /** Splitting off the last segment of an identifier, as `use` does with
      `parts.pop()` and `parts.join(separator)`: the container identifier and the target. */
  function SplitTarget(id: string, sep: char): (r: (string, string))
    ensures sep !in r.1
    ensures sep in id ==> r.0 + [sep] + r.1 == id
    ensures sep !in id ==> r == ("", id)
  {
    var parts := Split(id, sep);
    var n := |parts|;
    JoinSplit(id, sep);
    SplitPiecesAvoidSeparator(id, sep);
    if sep !in id then SplitWithoutSeparator(id, sep); ("", id)
    else
      assert n > 1;
      assert parts == parts[..n - 1] + [parts[n - 1]];
      JoinSnoc(parts[..n - 1], parts[n - 1], sep);
      (Join(parts[..n - 1], sep), parts[n - 1])
  }

  /** Every occurrence of `from` in `s` replaced by `to` (`s.replace(/\from/g, to)`). */
  function ReplaceAll(s: string, from: char, to: char): (r: string)
    ensures |r| == |s|
    decreases s
  {
    if s == [] then []
    else [if s[0] == from then to else s[0]] + ReplaceAll(s[1..], from, to)
  }

  /** `ReplaceAll` keeps the length and changes exactly the occurrences of `from`. */
  lemma {:induction false} ReplaceAllAt(s: string, from: char, to: char)
    ensures |ReplaceAll(s, from, to)| == |s|
    ensures forall i :: 0 <= i < |s| ==>
      ReplaceAll(s, from, to)[i] == (if s[i] == from then to else s[i])
    decreases s
  {
    if s != [] {
      ReplaceAllAt(s[1..], from, to);
      var r := ReplaceAll(s, from, to);
      forall i | 1 <= i < |s|
        ensures r[i] == (if s[i] == from then to else s[i])
      {
        assert r[i] == ReplaceAll(s[1..], from, to)[i - 1];
      }
    }
  }

  /** `mapIdentifierToUri`: the base URI, the identifier with each separator turned
      into `/`, and the `.js` extension. */
  function MapIdentifierToUri(baseUri: string, sep: char, id: string): (uri: string)
    ensures |uri| == |baseUri| + |id| + 3
    ensures uri[..|baseUri|] == baseUri && uri[|uri| - 3..] == ".js"
  {
    baseUri + ReplaceAll(id, sep, '/') + ".js"
  }

  /** The URI starts with the base URI, ends with `.js`, and in between is the
      identifier character by character, each separator being a `/`. */
  lemma UriShape(baseUri: string, sep: char, id: string)
    ensures var uri := MapIdentifierToUri(baseUri, sep, id);
      && |uri| == |baseUri| + |id| + 3
      && uri[..|baseUri|] == baseUri
      && uri[|uri| - 3..] == ".js"
      && forall i :: 0 <= i < |id| ==>
           uri[|baseUri| + i] == (if id[i] == sep then '/' else id[i])
  {
    ReplaceAllAt(id, sep, '/');
  }

  /** With a separator other than `/`, identifiers without `/` map to distinct URIs. */
  lemma UriInjective(baseUri: string, sep: char, a: string, b: string)
    requires sep != '/'
    requires '/' !in a && '/' !in b
    requires MapIdentifierToUri(baseUri, sep, a) == MapIdentifierToUri(baseUri, sep, b)
    ensures a == b
  {
    UriShape(baseUri, sep, a);
    UriShape(baseUri, sep, b);
    var ua := MapIdentifierToUri(baseUri, sep, a);
    assert |a| == |b|;
    forall i | 0 <= i < |a|
      ensures a[i] == b[i]
    {
      assert ua[|baseUri| + i] == (if a[i] == sep then '/' else a[i]);
      assert ua[|baseUri| + i] == (if b[i] == sep then '/' else b[i]);
      assert a[i] != '/' && b[i] != '/';
    }
  }

  /** The relative form accepted by `from(id).use`: a leading `.` (always a dot,
      not the configured separator) is prefixed with the bound identifier. */
  function ResolveRelative(bound: string, rel: string): (id: string)
    ensures |id| >= |rel| && id[|id| - |rel|..] == rel
    ensures |rel| > 0 && rel[0] == '.' ==> |id| == |bound| + |rel| && id[..|bound|] == bound
    ensures !(|rel| > 0 && rel[0] == '.') ==> id == rel
  {
    if |rel| > 0 && rel[0] == '.' then bound + rel else rel
  }
}
