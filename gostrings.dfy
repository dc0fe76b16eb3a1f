/** The parts of Go's `strings`, `unicode` and `bufio` packages that the documentation
    generator relies on, written over `string` (a sequence of runes). Each function
    follows the Go library's documented behaviour for the arguments the generator
    passes (single-character separators and cut sets). */
module GoStrings {
  import opened Wrappers

  /** unicode.IsSpace: the runes that strings.TrimSpace and strings.Fields treat as
      white space (the Latin-1 spaces and the Unicode White_Space property). */
  predicate IsSpace(c: char) {
    || c == ' ' || c == '\t' || c == '\n' || c == '\U{B}' || c == '\U{C}' || c == '\r'
    || c == '\U{85}' || c == '\U{A0}' || c == '\U{1680}'
    || ('\U{2000}' <= c <= '\U{200A}')
    || c == '\U{2028}' || c == '\U{2029}' || c == '\U{202F}' || c == '\U{205F}' || c == '\U{3000}'
  }

  predicate AllSpace(s: string) {
    forall i :: 0 <= i < |s| ==> IsSpace(s[i])
  }

  predicate NoSpace(s: string) {
    forall i :: 0 <= i < |s| ==> !IsSpace(s[i])
  }

  /** A string with no white space at either end. */
  predicate Trimmed(s: string) {
    s == [] || (!IsSpace(s[0]) && !IsSpace(s[|s| - 1]))
  }

  function TrimLeftSpace(s: string): (r: string)
    ensures |r| <= |s| && r == s[|s| - |r|..]
    ensures AllSpace(s[..|s| - |r|])
    ensures r == [] || !IsSpace(r[0])
  {
    if s != [] && IsSpace(s[0]) then TrimLeftSpace(s[1..]) else s
  }

  function TrimRightSpace(s: string): (r: string)
    ensures |r| <= |s| && r == s[..|r|]
    ensures AllSpace(s[|r|..])
    ensures r == [] || !IsSpace(r[|r| - 1])
  {
    if s != [] && IsSpace(s[|s| - 1]) then TrimRightSpace(s[..|s| - 1]) else s
  }

  /** strings.TrimSpace */
  function TrimSpace(s: string): (r: string)
    ensures Trimmed(r) && |r| <= |s|
  {
    var l := TrimLeftSpace(s);
    var r := TrimRightSpace(l);
    assert r != [] ==> r[0] == l[0];
    r
  }

  lemma TrimLeftOfNonSpace(s: string)
    requires s == [] || !IsSpace(s[0])
    ensures TrimLeftSpace(s) == s
  {
  }

  lemma TrimRightOfNonSpace(s: string)
    requires s == [] || !IsSpace(s[|s| - 1])
    ensures TrimRightSpace(s) == s
  {
  }

  /** Trimming changes nothing on a string that is already trimmed. */
  lemma TrimSpaceOfTrimmed(s: string)
    requires Trimmed(s)
    ensures TrimSpace(s) == s
  {
    TrimLeftOfNonSpace(s);
    TrimRightOfNonSpace(s);
  }

  lemma {:induction false} TrimLeftSpacePrefix(w: string, a: string)
    requires AllSpace(w)
    ensures TrimLeftSpace(w + a) == TrimLeftSpace(a)
  {
    if w != [] {
      assert (w + a)[1..] == w[1..] + a;
      TrimLeftSpacePrefix(w[1..], a);
    } else {
      assert w + a == a;
    }
  }

  /** Leading white space never survives TrimSpace. */
  lemma TrimSpaceSpacePrefix(w: string, a: string)
    requires AllSpace(w)
    ensures TrimSpace(w + a) == TrimSpace(a)
  {
    TrimLeftSpacePrefix(w, a);
  }

  lemma SpacePrefixTrimmed(t: string)
    ensures TrimSpace(" " + t) == TrimSpace(t)
  {
    assert AllSpace(" ");
    TrimSpaceSpacePrefix(" ", t);
  }

  lemma SpaceThenTrimmed(t: string)
    requires Trimmed(t)
    ensures TrimSpace(" " + t) == t
  {
    assert AllSpace(" ");
    TrimSpaceSpacePrefix(" ", t);
    TrimSpaceOfTrimmed(t);
  }

  lemma {:induction false} TrimLeftSpaceAppend(a: string, b: string)
    requires !AllSpace(a)
    ensures TrimLeftSpace(a + b) == TrimLeftSpace(a) + b
  {
    if IsSpace(a[0]) {
      assert (a + b)[1..] == a[1..] + b;
      TrimLeftSpaceAppend(a[1..], b);
    }
  }

  lemma {:induction false} TrimRightSpaceAppend(a: string, b: string)
    requires !AllSpace(b)
    ensures TrimRightSpace(a + b) == a + TrimRightSpace(b)
  {
    if IsSpace(b[|b| - 1]) {
      assert (a + b)[..|a + b| - 1] == a + b[..|b| - 1];
      TrimRightSpaceAppend(a, b[..|b| - 1]);
    } else {
      assert (a + b)[|a + b| - 1] == b[|b| - 1];
    }
  }

  predicate HasPrefix(s: string, p: string) {
    |p| <= |s| && s[..|p|] == p
  }

  predicate HasSuffix(s: string, p: string) {
    |p| <= |s| && s[|s| - |p|..] == p
  }

  function TrimPrefix(s: string, p: string): (r: string)
    ensures HasPrefix(s, p) ==> s == p + r
    ensures !HasPrefix(s, p) ==> r == s
  {
    if HasPrefix(s, p) then s[|p|..] else s
  }

  lemma HasPrefixAppend(a: string, b: string, p: string)
    requires HasPrefix(a, p)
    ensures HasPrefix(a + b, p)
  {
    assert (a + b)[..|p|] == a[..|p|];
  }

  /** A prefix as long as the first part of a concatenation is that part itself. */
  lemma AppendAssoc(a: string, b: string, c: string)
    ensures a + b + c == a + (b + c)
  {
  }

  lemma AppendNil<T>(s: seq<T>)
    ensures s + [] == s
  {
  }

  lemma NilAppend<T>(s: seq<T>)
    ensures [] + s == s
  {
  }

  lemma ConsAppend<T>(x: seq<T>, s: seq<T>)
    requires s != []
    ensures x + [s[0]] + s[1..] == x + s
  {
    assert s == [s[0]] + s[1..];
  }

  lemma HasPrefixTrans(s: string, t: string, p: string)
    requires HasPrefix(s, t) && HasPrefix(t, p)
    ensures HasPrefix(s, p)
  {
    assert s[..|p|] == s[..|t|][..|p|];
  }

  lemma PrefixOfSameLength(a: string, b: string, p: string)
    requires |a| == |p|
    ensures HasPrefix(a + b, p) <==> a == p
  {
    assert (a + b)[..|p|] == a;
  }

  lemma TrimPrefixOfConcat(p: string, r: string)
    ensures TrimPrefix(p + r, p) == r
  {
    assert (p + r)[..|p|] == p;
  }

  lemma TrimSuffixOfConcat(r: string, p: string)
    ensures TrimSuffix(r + p, p) == r
  {
    assert (r + p)[|r|..] == p;
  }

  function TrimSuffix(s: string, p: string): (r: string)
    ensures HasSuffix(s, p) ==> s == r + p
    ensures !HasSuffix(s, p) ==> r == s
  {
    if HasSuffix(s, p) then s[..|s| - |p|] else s
  }

  function TrimLeftChar(s: string, c: char): (r: string)
    ensures |r| <= |s| && r == s[|s| - |r|..]
    ensures forall i :: 0 <= i < |s| - |r| ==> s[i] == c
    ensures r == [] || r[0] != c
  {
    if s != [] && s[0] == c then
      var r := TrimLeftChar(s[1..], c);
      assert forall i :: 1 <= i < |s| ==> s[i] == s[1..][i - 1];
      r
    else s
  }

  function TrimRightChar(s: string, c: char): (r: string)
    ensures |r| <= |s| && r == s[..|r|]
    ensures forall i :: |r| <= i < |s| ==> s[i] == c
    ensures r == [] || r[|r| - 1] != c
  {
    if s != [] && s[|s| - 1] == c then TrimRightChar(s[..|s| - 1], c) else s
  }

  /** strings.Trim with a one-rune cut set: every leading and trailing c is removed. */
  function TrimChar(s: string, c: char): (r: string)
    ensures |r| <= |s|
    ensures r == [] || (r[0] != c && r[|r| - 1] != c)
    ensures forall x :: x in r ==> x in s
  {
    var l := TrimLeftChar(s, c);
    var r := TrimRightChar(l, c);
    assert r != [] ==> r[0] == l[0];
    SliceIn(s, |s| - |l|, |s|);
    SliceIn(l, 0, |r|);
    r
  }

  /** Every rune of a slice is a rune of the whole. */
  lemma SliceIn(s: string, i: int, j: int)
    requires 0 <= i <= j <= |s|
    ensures forall x :: x in s[i..j] ==> x in s
  {
    forall x | x in s[i..j] ensures x in s {
      var k :| 0 <= k < j - i && s[i..j][k] == x;
      assert s[i + k] == x;
    }
  }

  /** TrimChar removes exactly one layer of surrounding c's from a string that has
      none of its own at either end. */
  lemma TrimCharWrapped(c: char, x: string)
    requires x == [] || (x[0] != c && x[|x| - 1] != c)
    ensures TrimChar([c] + x + [c], c) == x
  {
    assert ([c] + x + [c])[1..] == x + [c];
    assert TrimLeftChar([c] + x + [c], c) == TrimLeftChar(x + [c], c);
    if x != [] {
      assert TrimLeftChar(x + [c], c) == x + [c];
      assert (x + [c])[..|x|] == x;
    }
  }

  /** strings.Index with a one-rune needle: the first position of c, or -1. */
  function IndexOf(s: string, c: char): (r: int)
    ensures -1 <= r < |s|
    ensures r == -1 <==> c !in s
    ensures 0 <= r ==> s[r] == c && c !in s[..r]
  {
    if s == [] then -1
    else if s[0] == c then 0
    else
      var k := IndexOf(s[1..], c);
      assert s[1..] == s[1..];
      if k < 0 then -1
      else
        assert s[..k + 1] == [s[0]] + s[1..][..k];
        k + 1
  }

  /** strings.LastIndex with a one-rune needle: the last position of c, or -1. */
  function LastIndexOf(s: string, c: char): (r: int)
    ensures -1 <= r < |s|
    ensures r == -1 <==> c !in s
    ensures 0 <= r ==> s[r] == c && c !in s[r + 1..]
  {
    if s == [] then -1
    else if s[|s| - 1] == c then |s| - 1
    else
      var k := LastIndexOf(s[..|s| - 1], c);
      assert s == s[..|s| - 1] + [s[|s| - 1]];
      assert 0 <= k ==> s[k + 1..] == s[..|s| - 1][k + 1..] + [s[|s| - 1]];
      k
  }

  /** The number of occurrences of c in s. */
  function Count(s: string, c: char): nat {
    if s == [] then 0 else (if s[0] == c then 1 else 0) + Count(s[1..], c)
  }

  lemma {:induction false} CountAppend(a: string, b: string, c: char)
    ensures Count(a + b, c) == Count(a, c) + Count(b, c)
  {
    if a == [] {
      assert a + b == b;
    } else {
      assert (a + b)[1..] == a[1..] + b;
      CountAppend(a[1..], b, c);
    }
  }

  lemma {:induction false} CountZero(s: string, c: char)
    ensures Count(s, c) == 0 <==> c !in s
  {
    if s != [] {
      CountZero(s[1..], c);
      assert s == [s[0]] + s[1..];
    }
  }

  /** strings.Join */
  function Join(parts: seq<string>, sep: string): string {
    if |parts| == 0 then []
    else if |parts| == 1 then parts[0]
    else parts[0] + sep + Join(parts[1..], sep)
  }

  lemma {:induction false} JoinSnoc(parts: seq<string>, x: string, sep: string)
    requires parts != []
    ensures Join(parts + [x], sep) == Join(parts, sep) + sep + x
  {
    if |parts| == 1 {
      assert parts + [x] == [parts[0], x];
    } else {
      assert (parts + [x])[1..] == parts[1..] + [x];
      JoinSnoc(parts[1..], x, sep);
    }
  }

  /** strings.Split with a one-rune separator. Its contract determines the result:
      the pieces hold no separator and joining them with it gives back s. */
  function Split(s: string, c: char): (r: seq<string>)
    ensures |r| == Count(s, c) + 1
    ensures forall k :: 0 <= k < |r| ==> c !in r[k]
    ensures Join(r, [c]) == s
    decreases |s|
  {
    var i := IndexOf(s, c);
    if i < 0 then
      CountZero(s, c);
      [s]
    else
      var rest := Split(s[i + 1..], c);
      SplitAt(s, c, i);
      assert ([s[..i]] + rest)[1..] == rest;
      [s[..i]] + rest
  }

  /** A text cut at its first separator: the separator is counted once, in front of
      the rest. */
  lemma SplitAt(s: string, c: char, i: int)
    requires 0 <= i < |s| && s[i] == c && c !in s[..i]
    ensures Count(s, c) == Count(s[i + 1..], c) + 1
    ensures s == s[..i] + [c] + s[i + 1..]
  {
    assert s == s[..i] + ([c] + s[i + 1..]);
    CountAppend(s[..i], [c] + s[i + 1..], c);
    CountAppend([c], s[i + 1..], c);
    CountZero(s[..i], c);
  }

  /** The first piece of a split is a prefix of the text. */
  lemma SplitHead(s: string, c: char)
    ensures |Split(s, c)[0]| <= |s| && Split(s, c)[0] == s[..|Split(s, c)[0]|]
    ensures forall x :: x in Split(s, c)[0] ==> x in s
  {
  }

  lemma {:induction false} SplitNoSeparator(s: string, c: char)
    requires c !in s
    ensures Split(s, c) == [s]
  {
  }

  /** Joining dot-free pieces around one separator and splitting again gives the pieces. */
  lemma SplitPair(a: string, b: string, c: char)
    requires c !in a && c !in b
    ensures Split(a + [c] + b, c) == [a, b]
  {
    var s := a + [c] + b;
    assert s[|a|] == c;
    assert s[..|a|] == a;
    assert s[|a| + 1..] == b;
    assert c !in s[..|a|];
  }

  /** The last piece of a split is the text after the last separator. */
  lemma {:induction false} SplitLast(x: string, y: string, c: char)
    requires c !in y
    ensures var r := Split(x + [c] + y, c); r[|r| - 1] == y
    decreases |x|
  {
    var s := x + [c] + y;
    var i := IndexOf(s, c);
    assert i <= |x| by {
      assert s[|x|] == c;
    }
    var rest := Split(s[i + 1..], c);
    LastOfCons(s[..i], rest);
    if i < |x| {
      assert s[i + 1..] == x[i + 1..] + [c] + y;
      SplitLast(x[i + 1..], y, c);
    } else {
      assert s[i + 1..] == y;
      SplitNoSeparator(y, c);
    }
  }

  lemma LastOfCons<T>(x: T, s: seq<T>)
    requires s != []
    ensures ([x] + s)[|s|] == s[|s| - 1]
  {
  }

  lemma SplitCons(a: string, c: char, rest: string)
    requires c !in a
    ensures Split(a + [c] + rest, c) == [a] + Split(rest, c)
  {
    var s := a + [c] + rest;
    assert s[|a|] == c;
    assert s[..|a|] == a;
    assert s[|a| + 1..] == rest;
  }

  /** Split undoes Join for pieces without the separator. */
  lemma {:induction false} SplitJoin(ps: seq<string>, c: char)
    requires ps != [] && forall k :: 0 <= k < |ps| ==> c !in ps[k]
    ensures Split(Join(ps, [c]), c) == ps
    decreases |ps|
  {
    if |ps| == 1 {
      SplitNoSeparator(ps[0], c);
    } else {
      SplitCons(ps[0], c, Join(ps[1..], [c]));
      SplitJoin(ps[1..], c);
      assert ps == [ps[0]] + ps[1..];
    }
  }

  /** The length of the longest prefix of s without white space. */
  function WordLength(s: string): (n: nat)
    ensures n <= |s| && NoSpace(s[..n])
    ensures n < |s| ==> IsSpace(s[n])
  {
    if s == [] || IsSpace(s[0]) then 0
    else
      var n := WordLength(s[1..]);
      assert s[..n + 1] == [s[0]] + s[1..][..n];
      n + 1
  }

  /** strings.Fields: the maximal runs of non-space runes, in order. */
  function Fields(s: string): (r: seq<string>)
    ensures Words(r)
    decreases |s|
  {
    var t := TrimLeftSpace(s);
    if t == [] then []
    else
      var n := WordLength(t);
      assert n > 0;
      var rest := Fields(t[n..]);
      WordsCons(t[..n], rest);
      [t[..n]] + rest
  }

  lemma WordsCons(w: string, ws: seq<string>)
    requires w != [] && NoSpace(w) && Words(ws)
    ensures Words([w] + ws)
  {
    assert forall k :: 1 <= k < |ws| + 1 ==> ([w] + ws)[k] == ws[k - 1];
  }

  lemma {:induction false} FieldsOfSpace(w: string)
    requires AllSpace(w)
    ensures Fields(w) == []
  {
    TrimLeftSpacePrefix(w, []);
    assert w + [] == w;
  }

  /** A word followed by white space and more text: the word is the first field. */
  lemma FieldsCons(word: string, w: string, rest: string)
    requires word != [] && NoSpace(word) && w != [] && AllSpace(w)
    ensures Fields(word + w + rest) == [word] + Fields(w + rest)
  {
    var s := word + w + rest;
    AppendAssoc(word, w, rest);
    assert s[0] == word[0];
    TrimLeftOfNonSpace(s);
    WordLengthOf(word, w + rest);
    assert s[..|word|] == word;
    assert s[|word|..] == w + rest;
  }

  /** The first word of a text is the word in front of its first white space. */
  lemma {:induction false} WordLengthOf(word: string, rest: string)
    requires NoSpace(word) && (rest == [] || IsSpace(rest[0]))
    ensures WordLength(word + rest) == |word|
    decreases |word|
  {
    if word == [] {
      assert word + rest == rest;
    } else {
      assert (word + rest)[0] == word[0];
      assert (word + rest)[1..] == word[1..] + rest;
      WordLengthOf(word[1..], rest);
    }
  }

  lemma FieldsOfWord(word: string)
    requires word != [] && NoSpace(word)
    ensures Fields(word) == [word]
  {
    TrimLeftOfNonSpace(word);
    assert word[..|word|] == word;
  }

  /** Fields ignores white space in front of the text. */
  lemma FieldsSpacePrefix(w: string, rest: string)
    requires AllSpace(w)
    ensures Fields(w + rest) == Fields(rest)
  {
    TrimLeftSpacePrefix(w, rest);
  }

  /** Words in the sense of Fields: non-empty runs of non-space runes. */
  predicate Words(ws: seq<string>) {
    forall k :: 0 <= k < |ws| ==> ws[k] != [] && NoSpace(ws[k])
  }

  lemma HeadTail<T>(s: seq<T>)
    requires s != []
    ensures s == [s[0]] + s[1..]
  {
  }

  /** Fields undoes joining words with single spaces. */
  lemma {:induction false} FieldsOfJoin(ws: seq<string>)
    requires Words(ws)
    ensures Fields(Join(ws, " ")) == ws
    decreases |ws|
  {
    if |ws| == 1 {
      FieldsOfWord(ws[0]);
    } else if |ws| > 1 {
      var rest := Join(ws[1..], " ");
      assert Fields(Join(ws, " ")) == [ws[0]] + Fields(rest) by {
        FieldsWordThenSpace(ws[0], rest);
      }
      assert Fields(rest) == ws[1..] by {
        WordsTail(ws);
        FieldsOfJoin(ws[1..]);
      }
      HeadTail(ws);
    }
  }

  lemma WordsTail(ws: seq<string>)
    requires Words(ws) && ws != []
    ensures Words(ws[1..])
  {
    forall k | 0 <= k < |ws[1..]| ensures ws[1..][k] != [] && NoSpace(ws[1..][k]) {
      assert ws[1..][k] == ws[k + 1];
    }
  }

  lemma FieldsWordThenSpace(word: string, rest: string)
    requires word != [] && NoSpace(word)
    ensures Fields(word + " " + rest) == [word] + Fields(rest)
  {
    FieldsCons(word, " ", rest);
    FieldsSpacePrefix(" ", rest);
  }

  /** Pieces without white space joined by a separator without white space. */
  lemma {:induction false} JoinNoSpace(ps: seq<string>, sep: string)
    requires forall k :: 0 <= k < |ps| ==> NoSpace(ps[k])
    requires NoSpace(sep)
    ensures NoSpace(Join(ps, sep))
    decreases |ps|
  {
    if |ps| > 1 {
      JoinNoSpace(ps[1..], sep);
      var rest := Join(ps[1..], sep);
      var j := ps[0] + sep + rest;
      forall i | 0 <= i < |j| ensures !IsSpace(j[i]) {
        if i < |ps[0]| {
          assert j[i] == ps[0][i];
        } else if i < |ps[0]| + |sep| {
          assert j[i] == sep[i - |ps[0]|];
        } else {
          assert j[i] == rest[i - |ps[0]| - |sep|];
        }
      }
    }
  }

  /** Words joined by single spaces begin with the first word, end with the last one
      and have no white space at either end. */
  lemma JoinWords(ws: seq<string>)
    requires Words(ws) && ws != []
    ensures HasPrefix(Join(ws, " "), ws[0])
    ensures HasSuffix(Join(ws, " "), ws[|ws| - 1])
    ensures Trimmed(Join(ws, " "))
  {
    var j := Join(ws, " ");
    var first := ws[0];
    var last := ws[|ws| - 1];
    JoinWordsFirst(ws);
    JoinWordsLast(ws);
    assert j[0] == j[..|first|][0] == first[0];
    assert j[|j| - 1] == j[|j| - |last|..][|last| - 1] == last[|last| - 1];
  }

  lemma JoinWordsFirst(ws: seq<string>)
    requires ws != []
    ensures HasPrefix(Join(ws, " "), ws[0])
  {
    if |ws| > 1 {
      var j := ws[0] + " " + Join(ws[1..], " ");
      assert j[..|ws[0]|] == ws[0];
    }
  }

  lemma {:induction false} JoinWordsLast(ws: seq<string>)
    requires ws != []
    ensures HasSuffix(Join(ws, " "), ws[|ws| - 1])
    decreases |ws|
  {
    if |ws| > 1 {
      var last := ws[|ws| - 1];
      var rest := Join(ws[1..], " ");
      assert ws[1..][|ws[1..]| - 1] == last;
      JoinWordsLast(ws[1..]);
      var j := ws[0] + " " + rest;
      assert j[|j| - |last|..] == rest[|rest| - |last|..];
    }
  }

  /** The only white space in words joined by single blanks is those blanks. */
  lemma {:induction false} JoinWordsBlanks(ws: seq<string>)
    requires Words(ws)
    ensures forall c :: c in Join(ws, " ") ==> c == ' ' || !IsSpace(c)
    decreases |ws|
  {
    if |ws| == 1 {
      assert forall c :: c in ws[0] ==> !IsSpace(c);
    } else if |ws| > 1 {
      var rest := Join(ws[1..], " ");
      JoinWordsBlanks(ws[1..]);
      assert forall c :: c in ws[0] ==> !IsSpace(c);
      assert Join(ws, " ") == ws[0] + " " + rest;
    }
  }

  lemma FirstOfPrefix(s: string, p: string)
    requires p != [] && HasPrefix(s, p)
    ensures s[0] == p[0]
  {
    assert s[..|p|][0] == s[0];
  }

  lemma NotInAppend(c: char, a: string, b: string, d: string)
    requires c !in a && c !in b && c !in d
    ensures c !in a + b + d
  {
  }

  lemma NotPrefixOfFirst(s: string, p: string)
    requires s != [] && p != [] && s[0] != p[0]
    ensures !HasPrefix(s, p)
  {
  }

  /** The suffixes of a concatenation no longer than its second part are that part's. */
  lemma SuffixOfAppend(a: string, b: string, p: string)
    requires |p| <= |b|
    ensures HasSuffix(a + b, p) <==> HasSuffix(b, p)
  {
    assert (a + b)[|a + b| - |p|..] == b[|b| - |p|..];
  }

  /** strings.ReplaceAll: every non-overlapping occurrence of pat, scanning from the
      left, is replaced by rep. An empty pat matches before every rune and at the end. */
  function ReplaceAll(s: string, pat: string, rep: string): (r: string)
    decreases |s|
  {
    if pat == [] then
      if s == [] then rep else rep + [s[0]] + ReplaceAll(s[1..], pat, rep)
    else if |s| < |pat| then s
    else if s[..|pat|] == pat then rep + ReplaceAll(s[|pat|..], pat, rep)
    else [s[0]] + ReplaceAll(s[1..], pat, rep)
  }

  /** pat occurs in s starting at position i. */
  predicate OccursAt(s: string, pat: string, i: nat) {
    i + |pat| <= |s| && s[i..i + |pat|] == pat
  }

  /** pat occurs in s as a contiguous piece. */
  ghost predicate Occurs(s: string, pat: string) {
    exists i: nat :: OccursAt(s, pat, i)
  }

  /** Replacing a piece that does not occur changes nothing. */
  lemma {:induction false} ReplaceAllAbsent(s: string, pat: string, rep: string)
    requires pat != [] && !Occurs(s, pat)
    ensures ReplaceAll(s, pat, rep) == s
    decreases |s|
  {
    if |s| >= |pat| {
      assert s[0..|pat|] == s[..|pat|];
      assert !OccursAt(s, pat, 0);
      assert !Occurs(s[1..], pat) by {
        forall i: nat | OccursAt(s[1..], pat, i) ensures false {
          assert s[1..][i..i + |pat|] == s[i + 1..i + 1 + |pat|];
          assert OccursAt(s, pat, i + 1);
        }
      }
      ReplaceAllAbsent(s[1..], pat, rep);
    }
  }

  /** Replacing a piece by itself changes nothing. */
  lemma {:induction false} ReplaceAllSelf(s: string, pat: string)
    ensures ReplaceAll(s, pat, pat) == s
    decreases |s|
  {
    if pat == [] {
      if s != [] {
        ReplaceAllSelf(s[1..], pat);
        assert s == [s[0]] + s[1..];
      }
    } else if |s| >= |pat| {
      if s[..|pat|] == pat {
        ReplaceAllSelf(s[|pat|..], pat);
        assert s == s[..|pat|] + s[|pat|..];
      } else {
        ReplaceAllSelf(s[1..], pat);
        assert s == [s[0]] + s[1..];
      }
    }
  }

  predicate IsUpperAscii(c: char) {
    'A' <= c <= 'Z'
  }

  /** unicode.ToLower, exact up to comparison with ASCII text: ASCII capitals are
      lowered, and so are the only two non-ASCII runes whose lower case is ASCII
      (U+0130 to 'i', the Kelvin sign U+212A to 'k'). Every other rune is kept; its
      true lower case is non-ASCII like the rune itself. */
  function LowerChar(c: char): char {
    if IsUpperAscii(c) then (c as int + 32) as char
    else if c == '\U{130}' then 'i'
    else if c == '\U{212A}' then 'k'
    else c
  }

  /** strings.ToLower, rune by rune through LowerChar. */
  function ToLower(s: string): (r: string)
    ensures |r| == |s|
    ensures forall i :: 0 <= i < |s| ==> r[i] == LowerChar(s[i])
  {
    if s == [] then [] else [LowerChar(s[0])] + ToLower(s[1..])
  }

  /** Text that ToLower leaves alone: no rune whose lower case differs. */
  lemma ToLowerOfLower(s: string)
    requires forall c :: c in s ==> !IsUpperAscii(c) && c != '\U{130}' && c != '\U{212A}'
    ensures ToLower(s) == s
  {
    forall i | 0 <= i < |s| ensures ToLower(s)[i] == s[i] {
      assert s[i] in s;
    }
  }

  lemma ToLowerAppend(a: string, b: string)
    ensures ToLower(a + b) == ToLower(a) + ToLower(b)
  {
    var l := ToLower(a + b);
    var r := ToLower(a) + ToLower(b);
    forall i | 0 <= i < |l| ensures l[i] == r[i] {
      if i < |a| {
        assert (a + b)[i] == a[i];
      } else {
        assert (a + b)[i] == b[i - |a|];
      }
    }
  }

  function AsciiFold(c: char): char {
    if IsUpperAscii(c) then (c as int + 32) as char else c
  }

  /** strings.EqualFold restricted to ASCII case folding. This is Go's result whenever
      one side is an ASCII word without 'k' or 's' (the letters with non-ASCII fold
      partners), which holds for every literal the generator compares against. */
  predicate EqualFoldAscii(a: string, b: string) {
    |a| == |b| && forall i :: 0 <= i < |a| ==> AsciiFold(a[i]) == AsciiFold(b[i])
  }

  /** One line of bufio.ScanLines: a single trailing carriage return is dropped. */
  function DropCR(line: string): string {
    if line != [] && line[|line| - 1] == '\r' then line[..|line| - 1] else line
  }

  /** The lines bufio.Scanner yields with ScanLines: text split at each newline, with no
      empty line after a final newline, and nothing at all for empty text. */
  function Lines(text: string): (r: seq<string>)
    ensures forall k :: 0 <= k < |r| ==> '\n' !in r[k]
    decreases |text|
  {
    if text == [] then []
    else
      var i := IndexOf(text, '\n');
      if i < 0 then [DropCR(text)]
      else [DropCR(text[..i])] + Lines(text[i + 1..])
  }

  /** A line that Lines yields unchanged: no newline, no trailing carriage return. */
  predicate PlainLine(l: string) {
    '\n' !in l && (l == [] || l[|l| - 1] != '\r')
  }

  lemma LinesCons(a: string, rest: string)
    requires PlainLine(a)
    ensures Lines(a + "\n" + rest) == [a] + Lines(rest)
  {
    var s := a + "\n" + rest;
    assert s[..|a|] == a && s[|a|] == '\n';
    assert IndexOf(s, '\n') == |a|;
    assert s[|a| + 1..] == rest;
  }

  /** Scanning lines undoes joining them with newlines, provided the last one is not
      empty (an empty last line is the final newline, which yields no line). */
  lemma {:induction false} LinesOfJoin(ls: seq<string>)
    requires forall k :: 0 <= k < |ls| ==> PlainLine(ls[k])
    requires ls == [] || ls[|ls| - 1] != []
    ensures Lines(Join(ls, "\n")) == ls
    decreases |ls|
  {
    if |ls| == 1 {
      assert IndexOf(ls[0], '\n') < 0;
    } else if |ls| > 1 {
      LinesCons(ls[0], Join(ls[1..], "\n"));
      LinesOfJoin(ls[1..]);
      assert ls == [ls[0]] + ls[1..];
    }
  }

  predicate IsDigit(c: char) {
    '0' <= c <= '9'
  }

  predicate AllDigits(s: string) {
    forall i :: 0 <= i < |s| ==> IsDigit(s[i])
  }

  /** The value of a decimal numeral, most significant digit first. */
  function DigitsValue(s: string): nat
    requires AllDigits(s)
    decreases |s|
  {
    if s == [] then 0 else DigitsValue(s[..|s| - 1]) * 10 + (s[|s| - 1] as int - '0' as int)
  }

  /** The shortest decimal numeral of n. */
  function Digits(n: nat): (r: string)
    ensures r != [] && AllDigits(r)
    decreases n
  {
    var d := ((n % 10) + '0' as int) as char;
    if n < 10 then [d] else Digits(n / 10) + [d]
  }

  lemma {:induction false} DigitsValueOfDigits(n: nat)
    ensures DigitsValue(Digits(n)) == n
    decreases n
  {
    if n >= 10 {
      DigitsValueOfDigits(n / 10);
      var s := Digits(n);
      assert s[..|s| - 1] == Digits(n / 10);
    }
  }

  /** The range of Go's int on a 64-bit platform. */
  predicate InInt64(n: int) {
    -0x8000_0000_0000_0000 <= n <= 0x7FFF_FFFF_FFFF_FFFF
  }

  /** strconv.Atoi on a 64-bit platform: an optional sign followed by one or more
      decimal digits and nothing else, whose value fits in 64 bits. */
  function Atoi(s: string): (r: Option<int>)
    ensures r.Some? ==> InInt64(r.value)
  {
    var signed := s != [] && (s[0] == '+' || s[0] == '-');
    var d := if signed then s[1..] else s;
    if d == [] || !AllDigits(d) then None
    else
      var v := if signed && s[0] == '-' then 0 - DigitsValue(d) as int else DigitsValue(d);
      if InInt64(v) then Some(v) else None
  }

  /** strconv.Itoa */
  function Itoa(n: int): (r: string) {
    if n < 0 then "-" + Digits(-n) else Digits(n)
  }

  /** The numeral of an integer is one word. */
  lemma ItoaWord(n: int)
    ensures Itoa(n) != [] && NoSpace(Itoa(n))
  {
    var d := if n < 0 then Digits(-n) else Digits(n);
    assert forall i :: 0 <= i < |d| ==> !IsSpace(d[i]);
    if n < 0 {
      var s := "-" + d;
      forall i | 0 <= i < |s| ensures !IsSpace(s[i]) {
        if i > 0 {
          assert s[i] == d[i - 1];
        }
      }
    }
  }

  /** A numeral without a sign, or with either sign in front, whose value fits. */
  lemma AtoiOfDigits(d: string)
    requires d != [] && AllDigits(d)
    ensures InInt64(DigitsValue(d)) ==> Atoi(d) == Some(DigitsValue(d))
    ensures InInt64(DigitsValue(d)) ==> Atoi("+" + d) == Some(DigitsValue(d))
    ensures InInt64(0 - DigitsValue(d) as int) ==> Atoi("-" + d) == Some(0 - DigitsValue(d) as int)
  {
    assert ("+" + d)[1..] == d;
    assert ("-" + d)[1..] == d;
  }

  /** Atoi reads back every numeral Itoa writes for a 64-bit value. */
  lemma AtoiItoa(n: int)
    requires InInt64(n)
    ensures Atoi(Itoa(n)) == Some(n)
  {
    if n < 0 {
      DigitsValueOfDigits(-n);
      AtoiOfDigits(Digits(-n));
    } else {
      DigitsValueOfDigits(n);
      AtoiOfDigits(Digits(n));
    }
  }

  /** Atoi rejects the empty text, a lone sign, a first rune that is neither a sign nor
      a digit, any later rune that is not a digit, and a numeral too large for 64 bits. */
  lemma AtoiRejects(s: string)
    ensures s == [] || s == "+" || s == "-" ==> Atoi(s) == None
    ensures s != [] && !IsDigit(s[0]) && s[0] != '+' && s[0] != '-' ==> Atoi(s) == None
    ensures (exists i :: 0 < i < |s| && !IsDigit(s[i])) ==> Atoi(s) == None
    ensures s != [] && AllDigits(s) && !InInt64(DigitsValue(s)) ==> Atoi(s) == None
  {
    if exists i :: 0 < i < |s| && !IsDigit(s[i]) {
      var i :| 0 < i < |s| && !IsDigit(s[i]);
      assert !IsDigit(s[1..][i - 1]);
    }
  }
}
