/**
 * The three operations of Go's strings package that the core uses:
 * TrimSpace, ReplaceAll(s, " ", "") and ToUpper.
 */
module Text {

  /** The white-space characters outside the range U+2000..U+200A. */
  const SpaceChars: set<char> :=
    {'\t', '\n', '\U{B}', '\U{C}', '\r', ' ', '\U{85}', '\U{A0}', '\U{1680}',
     '\U{2028}', '\U{2029}', '\U{202F}', '\U{205F}', '\U{3000}'}

  /** unicode.IsSpace, the notion of white space strings.TrimSpace uses. */
  predicate IsSpace(c: char)
  {
    c in SpaceChars || '\U{2000}' <= c <= '\U{200A}'
  }

  /** Drops the leading white space. */
  function TrimLeft(s: string): (r: string)
    ensures |r| <= |s|
    ensures r != [] ==> !IsSpace(r[0])
  {
    if s != [] && IsSpace(s[0]) then TrimLeft(s[1..]) else s
  }

  /** Drops the trailing white space. */
  function TrimRight(s: string): (r: string)
    ensures |r| <= |s|
    ensures r != [] ==> !IsSpace(r[|r| - 1])
  {
    if s != [] && IsSpace(s[|s| - 1]) then TrimRight(s[..|s| - 1]) else s
  }

  /** What TrimLeft drops is white space, and what it keeps is a suffix. */
  lemma {:induction false} TrimLeftDrops(s: string)
    ensures TrimLeft(s) == s[|s| - |TrimLeft(s)|..]
    ensures forall i :: 0 <= i < |s| - |TrimLeft(s)| ==> IsSpace(s[i])
  {
    if s != [] && IsSpace(s[0]) {
      TrimLeftDrops(s[1..]);
    }
  }

  /** What TrimRight drops is white space, and what it keeps is a prefix. */
  lemma {:induction false} TrimRightDrops(s: string)
    ensures TrimRight(s) == s[..|TrimRight(s)|]
    ensures forall i :: |TrimRight(s)| <= i < |s| ==> IsSpace(s[i])
  {
    if s != [] && IsSpace(s[|s| - 1]) {
      TrimRightDrops(s[..|s| - 1]);
    }
  }

  /** strings.TrimSpace: nothing is left exactly when everything was white space. */
  function TrimSpace(s: string): (r: string)
    ensures r == [] <==> forall i :: 0 <= i < |s| ==> IsSpace(s[i])
    ensures r != [] ==> !IsSpace(r[0]) && !IsSpace(r[|r| - 1])
    ensures |r| <= |s|
  {
    var t := TrimLeft(s);
    TrimLeftDrops(s);
    TrimRightDrops(t);
    assert t != [] ==> t[0] == s[|s| - |t|];
    TrimRight(t)
  }

  /** TrimSpace keeps a slice of its input and drops only white space before and after it. */
  lemma TrimSpaceInfix(s: string)
    ensures exists a, b :: 0 <= a <= b <= |s| && TrimSpace(s) == s[a..b] &&
                           (forall i :: 0 <= i < a ==> IsSpace(s[i])) &&
                           (forall i :: b <= i < |s| ==> IsSpace(s[i]))
  {
    var t := TrimLeft(s);
    var u := TrimRight(t);
    TrimLeftDrops(s);
    TrimRightDrops(t);
    var a := |s| - |t|;
    var b := a + |u|;
    assert TrimSpace(s) == u;
    assert u == s[a..b] by {
      assert t == s[a..];
      assert u == t[..|u|];
    }
    assert forall i :: b <= i < |s| ==> IsSpace(s[i]) by {
      forall i | b <= i < |s| ensures IsSpace(s[i]) {
        assert |u| <= i - a < |t| && s[i] == t[i - a];
      }
    }
  }

  /** strings.ReplaceAll(s, " ", ""): every space goes. */
  function RemoveSpaces(s: string): (r: string)
    ensures ' ' !in r
    ensures ' ' !in s ==> r == s
  {
    if s == [] then []
    else
      assert s == [s[0]] + s[1..];
      (if s[0] == ' ' then [] else [s[0]]) + RemoveSpaces(s[1..])
  }

  /**
   * unicode.ToUpper on one character, as far as it can matter here: ASCII
   * letters, and the two non-ASCII letters whose upper case is ASCII.
   */
  function UpperChar(c: char): (u: char)
    ensures IsSpace(u) == IsSpace(c)
    ensures (u == ' ') == (c == ' ')
    ensures !('a' <= u <= 'z')
    ensures ('A' <= c <= 'Z') || ('0' <= c <= '9') ==> u == c
    ensures 'a' <= c <= 'z' ==> 'A' <= u <= 'Z' && u as int - 'A' as int == c as int - 'a' as int
  {
    if 'a' <= c <= 'z' then (c as int - 32) as char
    else if c == '\U{131}' then 'I'
    else if c == '\U{17F}' then 'S'
    else c
  }

  /** strings.ToUpper, character by character. */
  function ToUpper(s: string): (r: string)
    ensures |r| == |s|
    ensures forall i :: 0 <= i < |s| ==> r[i] == UpperChar(s[i])
  {
    seq(|s|, i requires 0 <= i < |s| => UpperChar(s[i]))
  }

  /** ReplaceAll drops nothing but spaces: every other character keeps its count. */
  lemma {:induction false} RemoveSpacesCounts(s: string)
    ensures forall c :: c != ' ' ==> multiset(RemoveSpaces(s))[c] == multiset(s)[c]
  {
    if s != [] {
      assert s == [s[0]] + s[1..];
      RemoveSpacesCounts(s[1..]);
    }
  }

  lemma {:induction false} RemoveSpacesAppend(a: string, b: string)
    ensures RemoveSpaces(a + b) == RemoveSpaces(a) + RemoveSpaces(b)
  {
    if a == [] {
      assert a + b == b;
    } else {
      assert (a + b)[1..] == a[1..] + b;
      RemoveSpacesAppend(a[1..], b);
    }
  }

  /** Removing the spaces before or after trimming the front gives the same string. */
  lemma {:induction false} TrimLeftRemoveSpaces(s: string)
    ensures RemoveSpaces(TrimLeft(s)) == TrimLeft(RemoveSpaces(s))
  {
    if s != [] {
      var c, rest := s[0], RemoveSpaces(s[1..]);
      TrimLeftRemoveSpaces(s[1..]);
      if c == ' ' {
        assert RemoveSpaces(s) == rest;
        assert TrimLeft(s) == TrimLeft(s[1..]) by { assert IsSpace(' '); }
      } else if IsSpace(c) {
        assert RemoveSpaces(s) == [c] + rest;
        assert TrimLeft([c] + rest) == TrimLeft(rest) by { assert ([c] + rest)[1..] == rest; }
      } else {
        assert RemoveSpaces(s) == [c] + rest;
      }
    }
  }

  /** Removing the spaces before or after trimming the back gives the same string. */
  lemma {:induction false} TrimRightRemoveSpaces(s: string)
    ensures RemoveSpaces(TrimRight(s)) == TrimRight(RemoveSpaces(s))
  {
    if s != [] {
      var p, c := s[..|s| - 1], s[|s| - 1];
      var q := RemoveSpaces(p);
      TrimRightRemoveSpaces(p);
      assert RemoveSpaces(s) == q + (if c == ' ' then [] else [c]) by {
        assert s == p + [c];
        RemoveSpacesAppend(p, [c]);
        assert [c][1..] == [];
      }
      if c == ' ' {
        assert TrimRight(s) == TrimRight(p) by { assert IsSpace(' '); }
        assert q + [] == q;
      } else if IsSpace(c) {
        assert TrimRight(q + [c]) == TrimRight(q) by { assert (q + [c])[..|q|] == q; }
      }
    }
  }

  /** Spaces are white space, so dropping them commutes with TrimSpace. */
  lemma TrimSpaceRemoveSpaces(s: string)
    ensures RemoveSpaces(TrimSpace(s)) == TrimSpace(RemoveSpaces(s))
  {
    TrimRightRemoveSpaces(TrimLeft(s));
    TrimLeftRemoveSpaces(s);
  }
}
