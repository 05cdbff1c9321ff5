/** Go's strings.Fields on a byte string, as parseData uses it (buoybot.go:181), and strings.Join (buoybot.go:197). */
module Tokenizer {
  import opened Bytes

  /** The length of the run of non-space bytes that starts s. */
  function WordLength(s: seq<Byte>): (n: nat)
    ensures n <= |s| && NoSpace(s[..n])
    ensures n == |s| || IsSpace(s[n])
  {
    if s == [] || IsSpace(s[0]) then 0
    else
      var n := 1 + WordLength(s[1..]);
      assert s[..n] == [s[0]] + s[1..][..n - 1];
      n
  }

  /** The maximal runs of non-space bytes of s, in order. */
  function Fields(s: seq<Byte>): (fields: seq<seq<Byte>>)
    ensures forall i :: 0 <= i < |fields| ==> fields[i] != [] && NoSpace(fields[i])
    decreases |s|
  {
    if s == [] then []
    else if IsSpace(s[0]) then Fields(s[1..])
    else
      var n := WordLength(s);
      [s[..n]] + Fields(s[n..])
  }

  /** Go's strings.Join: the elements with sep between each neighbouring pair. */
  function Join(elems: seq<seq<Byte>>, sep: seq<Byte>): (joined: seq<Byte>)
    ensures elems != [] ==> |joined| == |Concat(elems)| + (|elems| - 1) * |sep|
  {
    if |elems| == 0 then []
    else if |elems| == 1 then elems[0]
    else elems[0] + sep + Join(elems[1..], sep)
  }

  /** The elements laid out between gaps: gaps[0] + elems[0] + gaps[1] + ... + elems[n-1] + gaps[n]. */
  function Layout(elems: seq<seq<Byte>>, gaps: seq<seq<Byte>>): seq<Byte>
    requires |gaps| == |elems| + 1
  {
    if elems == [] then gaps[0]
    else gaps[0] + elems[0] + Layout(elems[1..], gaps[1..])
  }

  /** Words as Fields produces them: non-empty, with no white space. */
  predicate AreWords(elems: seq<seq<Byte>>) {
    forall i :: 0 <= i < |elems| ==> elems[i] != [] && NoSpace(elems[i])
  }

  /** Gaps made of white space, the inner ones non-empty so that neighbouring words stay apart. */
  predicate AreGaps(gaps: seq<seq<Byte>>) {
    && |gaps| >= 1
    && (forall i :: 0 <= i < |gaps| ==> AllSpace(gaps[i]))
    && (forall i :: 0 < i < |gaps| - 1 ==> gaps[i] != [])
  }

  function Concat(elems: seq<seq<Byte>>): seq<Byte> {
    if elems == [] then [] else elems[0] + Concat(elems[1..])
  }

  /** s with its white space dropped. */
  function RemoveSpaces(s: seq<Byte>): seq<Byte> {
    if s == [] then [] else (if IsSpace(s[0]) then [] else [s[0]]) + RemoveSpaces(s[1..])
  }

  lemma {:induction false} FieldsSkipsSpaces(g: seq<Byte>, s: seq<Byte>)
    requires AllSpace(g)
    ensures Fields(g + s) == Fields(s)
    decreases |g|
  {
    if g != [] {
      assert (g + s)[0] == g[0] && (g + s)[1..] == g[1..] + s;
      assert Fields(g + s) == Fields(g[1..] + s);
      FieldsSkipsSpaces(g[1..], s);
    } else {
      assert g + s == s;
    }
  }

  lemma {:induction false} WordLengthIs(s: seq<Byte>, n: nat)
    requires n <= |s| && NoSpace(s[..n]) && (n == |s| || IsSpace(s[n]))
    ensures WordLength(s) == n
  {
    if n > 0 {
      assert s[..n][0] == s[0];
      assert s[1..][..n - 1] == s[..n][1..];
      WordLengthIs(s[1..], n - 1);
    }
  }

  /** A word followed by the end or by white space is the next field. */
  lemma FieldsTakesWord(w: seq<Byte>, s: seq<Byte>)
    requires w != [] && NoSpace(w)
    requires s == [] || IsSpace(s[0])
    ensures Fields(w + s) == [w] + Fields(s)
  {
    assert (w + s)[..|w|] == w;
    WordLengthIs(w + s, |w|);
    assert (w + s)[|w|..] == s;
  }

  /** Text that ends in white space (or is empty) splits independently of what follows it. */
  lemma {:induction false} FieldsOfConcat(a: seq<Byte>, b: seq<Byte>)
    requires a == [] || IsSpace(a[|a| - 1])
    ensures Fields(a + b) == Fields(a) + Fields(b)
    decreases |a|
  {
    if a == [] {
      assert a + b == b;
    } else if IsSpace(a[0]) {
      assert (a + b)[0] == a[0] && (a + b)[1..] == a[1..] + b;
      FieldsOfConcat(a[1..], b);
    } else {
      var n := WordLength(a);
      assert n < |a|;
      assert (a + b)[..n] == a[..n] && (a + b)[n] == a[n];
      WordLengthIs(a + b, n);
      assert (a + b)[n..] == a[n..] + b;
      FieldsOfConcat(a[n..], b);
    }
  }

  /** Laying words out between white-space gaps and splitting the result gives the words back. */
  lemma {:induction false} FieldsOfLayout(elems: seq<seq<Byte>>, gaps: seq<seq<Byte>>)
    requires AreWords(elems) && AreGaps(gaps) && |gaps| == |elems| + 1
    ensures Fields(Layout(elems, gaps)) == elems
    decreases |elems|
  {
    if elems == [] {
      FieldsSkipsSpaces(gaps[0], []);
      assert gaps[0] + [] == gaps[0];
    } else {
      var rest := Layout(elems[1..], gaps[1..]);
      assert rest == [] || IsSpace(rest[0]) by {
        if elems[1..] == [] {
          assert rest == gaps[1];
        } else {
          assert rest == gaps[1] + elems[1] + Layout(elems[2..], gaps[2..]);
          assert gaps[1] != [];
        }
      }
      assert Layout(elems, gaps) == gaps[0] + (elems[0] + rest);
      FieldsSkipsSpaces(gaps[0], elems[0] + rest);
      FieldsTakesWord(elems[0], rest);
      FieldsOfLayout(elems[1..], gaps[1..]);
    }
  }

  /** The runs of white space around the fields of s: before the first, between neighbours, after the last. */
  function Gaps(s: seq<Byte>): (gaps: seq<seq<Byte>>)
    ensures |gaps| == |Fields(s)| + 1 && AreGaps(gaps)
    ensures s != [] && IsSpace(s[0]) ==> gaps[0] != []
    decreases |s|
  {
    if s == [] then [[]]
    else if IsSpace(s[0]) then
      var g := Gaps(s[1..]);
      [[s[0]] + g[0]] + g[1..]
    else
      var g := Gaps(s[WordLength(s)..]);
      assert |g| > 1 ==> s[WordLength(s)..] != [];
      [[]] + g
  }

  /** Widening the first gap widens the layout at its front. */
  lemma LayoutWidened(elems: seq<seq<Byte>>, gaps: seq<seq<Byte>>, x: seq<Byte>)
    requires |gaps| == |elems| + 1
    ensures Layout(elems, [x + gaps[0]] + gaps[1..]) == x + Layout(elems, gaps)
  {
    var wide := [x + gaps[0]] + gaps[1..];
    assert wide[0] == x + gaps[0] && wide[1..] == gaps[1..];
    if elems != [] {
      assert Layout(elems, wide) == (x + gaps[0]) + elems[0] + Layout(elems[1..], gaps[1..]);
    }
  }

  /** Fields loses nothing but the white space: laying the fields of s out between its gaps gives s back. */
  lemma {:induction false} LayoutOfFields(s: seq<Byte>)
    ensures Layout(Fields(s), Gaps(s)) == s
    decreases |s|
  {
    if s != [] {
      if IsSpace(s[0]) {
        LayoutOfFields(s[1..]);
        LayoutWidened(Fields(s[1..]), Gaps(s[1..]), [s[0]]);
        assert s == [s[0]] + s[1..];
      } else {
        var n := WordLength(s);
        LayoutOfFields(s[n..]);
        var g := [[]] + Gaps(s[n..]);
        assert g[0] == [] && g[1..] == Gaps(s[n..]);
        assert ([s[..n]] + Fields(s[n..]))[1..] == Fields(s[n..]);
        assert s == [] + s[..n] + s[n..];
      }
    }
  }

  /** Joining words with a white-space separator and splitting the result gives the words back. */
  lemma {:induction false} FieldsOfJoin(elems: seq<seq<Byte>>, sep: seq<Byte>)
    requires AreWords(elems) && sep != [] && AllSpace(sep)
    ensures Fields(Join(elems, sep)) == elems
    decreases |elems|
  {
    if |elems| == 1 {
      FieldsTakesWord(elems[0], []);
      assert elems[0] + [] == elems[0];
    } else if |elems| > 1 {
      var rest := Join(elems[1..], sep);
      assert Join(elems, sep) == elems[0] + (sep + rest);
      FieldsTakesWord(elems[0], sep + rest);
      FieldsSkipsSpaces(sep, rest);
      FieldsOfJoin(elems[1..], sep);
    }
  }

  lemma {:induction false} RemoveSpacesAppend(a: seq<Byte>, b: seq<Byte>)
    ensures RemoveSpaces(a + b) == RemoveSpaces(a) + RemoveSpaces(b)
    decreases |a|
  {
    if a != [] {
      var head := if IsSpace(a[0]) then [] else [a[0]];
      assert (a + b)[0] == a[0] && (a + b)[1..] == a[1..] + b;
      assert RemoveSpaces(a + b) == head + RemoveSpaces(a[1..] + b);
      RemoveSpacesAppend(a[1..], b);
    } else {
      assert a + b == b;
    }
  }

  lemma {:induction false} RemoveSpacesOfWord(w: seq<Byte>)
    requires NoSpace(w)
    ensures RemoveSpaces(w) == w
    decreases |w|
  {
    if w != [] {
      RemoveSpacesOfWord(w[1..]);
    }
  }

  /** Fields loses no byte other than white space: its fields put together are s without its white space. */
  lemma {:induction false} FieldsKeepEveryNonSpace(s: seq<Byte>)
    ensures Concat(Fields(s)) == RemoveSpaces(s)
    decreases |s|
  {
    if s != [] {
      if IsSpace(s[0]) {
        FieldsKeepEveryNonSpace(s[1..]);
      } else {
        var n := WordLength(s);
        assert s == s[..n] + s[n..];
        FieldsKeepEveryNonSpace(s[n..]);
        RemoveSpacesAppend(s[..n], s[n..]);
        RemoveSpacesOfWord(s[..n]);
        assert Concat(Fields(s)) == s[..n] + Concat(Fields(s[n..]));
      }
    }
  }

  lemma FieldsSkipsSpaceAt(s: seq<Byte>, i: nat)
    requires i < |s| && IsSpace(s[i])
    ensures Fields(s[i..]) == Fields(s[i + 1..])
  {
    assert s[i..][0] == s[i] && s[i..][1..] == s[i + 1..];
  }

  lemma FieldsTakesWordAt(s: seq<Byte>, start: nat, i: nat)
    requires start < i <= |s| && NoSpace(s[start..i])
    requires i == |s| || IsSpace(s[i])
    ensures Fields(s[start..]) == [s[start..i]] + Fields(s[i..])
  {
    assert s[start..] == s[start..i] + s[i..];
    FieldsTakesWord(s[start..i], s[i..]);
  }

  lemma SpaceSlice(s: seq<Byte>, i: nat, j: nat)
    requires i <= j <= |s| && forall k :: i <= k < j ==> IsSpace(s[k])
    ensures AllSpace(s[i..j])
  {
    assert forall k :: 0 <= k < j - i ==> s[i..j][k] == s[i + k];
  }

  lemma WordSlice(s: seq<Byte>, i: nat, j: nat)
    requires i <= j <= |s| && forall k :: i <= k < j ==> !IsSpace(s[k])
    ensures NoSpace(s[i..j])
  {
    assert forall k :: 0 <= k < j - i ==> s[i..j][k] == s[i + k];
  }

  /** Advances from i past white space; what Fields finds from there on is unchanged. */
  method SkipSpaces(s: seq<Byte>, i: nat) returns (j: nat)
    requires i <= |s|
    ensures i <= j <= |s| && AllSpace(s[i..j]) && (j == |s| || !IsSpace(s[j]))
    ensures Fields(s[j..]) == Fields(s[i..])
  {
    j := i;
    while j < |s| && IsSpace(s[j])
      invariant i <= j <= |s|
      invariant forall k :: i <= k < j ==> IsSpace(s[k])
      invariant Fields(s[j..]) == Fields(s[i..])
    {
      FieldsSkipsSpaceAt(s, j);
      j := j + 1;
    }
    SpaceSlice(s, i, j);
  }

  /** Advances from i to the end of the run of non-space bytes starting there. */
  method ScanWord(s: seq<Byte>, i: nat) returns (j: nat)
    requires i <= |s|
    ensures i <= j <= |s| && NoSpace(s[i..j]) && (j == |s| || IsSpace(s[j]))
  {
    j := i;
    while j < |s| && !IsSpace(s[j])
      invariant i <= j <= |s|
      invariant forall k :: i <= k < j ==> !IsSpace(s[k])
    {
      j := j + 1;
    }
    WordSlice(s, i, j);
  }

  /** The scan strings.Fields performs: skip white space, take a field, repeat. */
  method SplitFields(s: seq<Byte>) returns (fields: seq<seq<Byte>>)
    ensures fields == Fields(s)
  {
    fields := [];
    var i := SkipSpaces(s, 0);
    while i < |s|
      invariant 0 <= i <= |s|
      invariant i < |s| ==> !IsSpace(s[i])
      invariant fields + Fields(s[i..]) == Fields(s)
      decreases |s| - i
    {
      var j := ScanWord(s, i);
      var word := s[i..j];
      FieldsTakesWordAt(s, i, j);
      assert fields + [word] + Fields(s[j..]) == fields + ([word] + Fields(s[j..]));
      fields := fields + [word];
      i := SkipSpaces(s, j);
    }
  }
}
