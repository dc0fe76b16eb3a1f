/** The type-string helpers of utils/utils.go: rendering a type expression, splitting
    `Base[A, B[C, D]]` into its base and top-level arguments, splitting `pkg.Name`,
    recognising scalar types, substituting type parameters and reading the JSON name
    out of a struct tag. */
module Utils {
  import opened Wrappers
  import opened GoStrings
  import opened GoAst
  import opened Models

  function Last<T>(s: seq<T>): T
    requires s != []
  {
    s[|s| - 1]
  }

  lemma InitLast<T>(s: seq<T>)
    requires s != []
    ensures s == s[..|s| - 1] + [Last(s)]
  {
  }

  // ---------------------------------------------------------------------------
  // Rendering type expressions (ExprToString)
  // ---------------------------------------------------------------------------

  /** The Go spelling of a type expression; node kinds the generator does not handle
      render as the empty string. */
  function ExprToString(e: Expr): (r: string)
    ensures r == [] ==> e.Ident? || e.BasicLit? || e.OtherExpr?
  {
    match e
    case Ident(name) => name
    case StarExpr(x) => "*" + ExprToString(x)
    case ArrayType(elt) => "[]" + ExprToString(elt)
    case SelectorExpr(x, sel) => ExprToString(x) + "." + sel
    case MapType(k, v) => "map[" + ExprToString(k) + "]" + ExprToString(v)
    case FuncType => "func"
    case InterfaceType => "interface{}"
    case ChanType(v) => "chan " + ExprToString(v)
    case Ellipsis(elt) => "..." + ExprToString(elt)
    case BasicLit(text) => text
    case IndexExpr(x, index) => ExprToString(x) + "[" + ExprToString(index) + "]"
    case OtherExpr => ""
  }

  // ---------------------------------------------------------------------------
  // Bracket depth and top-level segments (splitTypeArguments)
  // ---------------------------------------------------------------------------

  function Delta(c: char): int {
    if c == '[' then 1 else if c == ']' then -1 else 0
  }

  /** The bracket depth after reading s: opening minus closing brackets. It may be
      negative, exactly like the counter in the source. */
  function Depth(s: string): int {
    if s == [] then 0 else Depth(s[..|s| - 1]) + Delta(s[|s| - 1])
  }

  /** A comma at depth 0 separates two type arguments. */
  predicate TopCommaAt(s: string, i: int) {
    0 <= i < |s| && s[i] == ',' && Depth(s[..i]) == 0
  }

  /** Every comma of s is nested inside brackets. */
  predicate NoTopComma(s: string) {
    forall i :: 0 <= i < |s| && s[i] == ',' ==> Depth(s[..i]) != 0
  }

  /** The number of top-level commas of s. */
  function TopCommas(s: string): nat {
    if s == [] then 0
    else TopCommas(s[..|s| - 1]) + (if TopCommaAt(s, |s| - 1) then 1 else 0)
  }

  /** The state of the scan in splitTypeArguments: the pieces closed by a top-level
      comma so far, and the piece being read. */
  datatype ScanState = ScanState(done: seq<string>, current: string)

  /** The scan after reading s: a top-level comma closes the current piece, every
      other rune is appended to it. */
  function Scan(s: string): ScanState {
    if s == [] then ScanState([], [])
    else
      var st := Scan(s[..|s| - 1]);
      var c := s[|s| - 1];
      if c == ',' && Depth(s[..|s| - 1]) == 0 then ScanState(st.done + [st.current], [])
      else ScanState(st.done, st.current + [c])
  }

  /** All pieces of s between top-level commas; the last one may be empty. */
  function Segs(s: string): seq<string> {
    Scan(s).done + [Scan(s).current]
  }

  /** Each piece trimmed of white space. */
  function TrimAll(xs: seq<string>): (r: seq<string>)
    ensures |r| == |xs|
    ensures forall k :: 0 <= k < |xs| ==> r[k] == TrimSpace(xs[k])
  {
    seq(|xs|, k requires 0 <= k < |xs| => TrimSpace(xs[k]))
  }

  lemma TrimAllSnoc(xs: seq<string>, x: string)
    ensures TrimAll(xs + [x]) == TrimAll(xs) + [TrimSpace(x)]
  {
  }

  /** What splitTypeArguments returns: every closed piece trimmed, then the piece
      being read, trimmed, unless it is empty. Empty closed pieces are kept. */
  function TypeArguments(s: string): seq<string> {
    var st := Scan(s);
    TrimAll(st.done) + (if st.current != [] then [TrimSpace(st.current)] else [])
  }

  method SplitTypeArguments(argsStr: string) returns (args: seq<string>)
    ensures args == TypeArguments(argsStr)
  {
    args := [];
    var current: string := [];
    var depth := 0;
    ghost var raws: seq<string> := [];
    for i := 0 to |argsStr|
      invariant depth == Depth(argsStr[..i])
      invariant Scan(argsStr[..i]) == ScanState(raws, current)
      invariant args == TrimAll(raws)
    {
      var r := argsStr[i];
      assert argsStr[..i + 1] == argsStr[..i] + [r];
      ScanSnoc(argsStr[..i], r);
      if r == '[' {
        depth := depth + 1;
        current := current + [r];
      } else if r == ']' {
        depth := depth - 1;
        current := current + [r];
      } else if r == ',' {
        if depth == 0 {
          TrimAllSnoc(raws, current);
          args := args + [TrimSpace(current)];
          raws := raws + [current];
          current := [];
        } else {
          current := current + [r];
        }
      } else {
        current := current + [r];
      }
    }
    assert argsStr[..|argsStr|] == argsStr;
    if |current| > 0 {
      args := args + [TrimSpace(current)];
    }
  }

  /** One more rune read. */
  lemma ScanSnoc(s: string, c: char)
    ensures Depth(s + [c]) == Depth(s) + Delta(c)
    ensures Scan(s + [c]) ==
      if c == ',' && Depth(s) == 0 then ScanState(Scan(s).done + [Scan(s).current], [])
      else ScanState(Scan(s).done, Scan(s).current + [c])
  {
    assert (s + [c])[..|s|] == s;
  }

  lemma {:induction false} DepthAppend(a: string, b: string)
    ensures Depth(a + b) == Depth(a) + Depth(b)
    decreases |b|
  {
    if b == [] {
      assert a + b == a;
    } else {
      var b' := b[..|b| - 1];
      assert (a + b)[..|a + b| - 1] == a + b';
      DepthAppend(a, b');
    }
  }

  /** Joining the pieces with commas gives back the text. */
  lemma {:induction false} SegsJoin(s: string)
    ensures Join(Segs(s), ",") == s
    decreases |s|
  {
    if s != [] {
      var init := s[..|s| - 1];
      var c := s[|s| - 1];
      assert s == init + [c];
      ScanSnoc(init, c);
      SegsJoin(init);
      var st := Scan(init);
      if c == ',' && Depth(init) == 0 {
        JoinSnoc(st.done + [st.current], [], ",");
      } else if st.done == [] {
        assert Segs(s) == [st.current + [c]];
        assert Segs(init) == [st.current];
      } else {
        JoinSnoc(st.done, st.current, ",");
        JoinSnoc(st.done, st.current + [c], ",");
      }
    }
  }

  /** The scan closes one piece per top-level comma. */
  lemma {:induction false} SegsCount(s: string)
    ensures |Scan(s).done| == TopCommas(s)
    ensures |Segs(s)| == TopCommas(s) + 1
    decreases |s|
  {
    if s != [] {
      SegsCount(s[..|s| - 1]);
    }
  }

  lemma NoTopCommaSnoc(l: string, c: char)
    requires NoTopComma(l) && !(c == ',' && Depth(l) == 0)
    ensures NoTopComma(l + [c])
  {
    var l' := l + [c];
    assert l'[..|l|] == l;
    forall i | 0 <= i < |l'| && l'[i] == ','
      ensures Depth(l'[..i]) != 0
    {
      if i < |l| {
        assert l'[..i] == l[..i];
      }
    }
  }

  /** The depth of the text is the depth of the piece being read, and no piece holds a
      top-level comma of its own. */
  lemma {:induction false} SegsShape(s: string)
    ensures Depth(s) == Depth(Scan(s).current)
    ensures NoTopComma(Scan(s).current)
    ensures forall k :: 0 <= k < |Scan(s).done| ==> NoTopComma(Scan(s).done[k])
    decreases |s|
  {
    if s != [] {
      var init := s[..|s| - 1];
      var c := s[|s| - 1];
      assert s == init + [c];
      ScanSnoc(init, c);
      SegsShape(init);
      var st := Scan(init);
      if !(c == ',' && Depth(init) == 0) {
        ScanSnoc(st.current, c);
        NoTopCommaSnoc(st.current, c);
      }
    }
  }

  lemma DepthAfterComma(p: string, q: string)
    requires Depth(p) == 0
    ensures Depth(p + [','] + q) == Depth(q)
  {
    ScanSnoc(p, ',');
    DepthAppend(p + [','], q);
  }

  /** A top-level comma after a balanced prefix closes all of the prefix's pieces. */
  lemma {:induction false} ScanAppend(p: string, q: string)
    requires Depth(p) == 0
    ensures Scan(p + [','] + q) == ScanState(Segs(p) + Scan(q).done, Scan(q).current)
    decreases |q|
  {
    if q == [] {
      ScanSnoc(p, ',');
      assert p + [','] + q == p + [','];
    } else {
      var q' := q[..|q| - 1];
      var c := q[|q| - 1];
      var s' := p + [','] + q';
      assert p + [','] + q == s' + [c];
      assert q == q' + [c];
      ScanAppend(p, q');
      DepthAfterComma(p, q');
      ScanSnoc(s', c);
      ScanSnoc(q', c);
      var st := Scan(q');
      assert Segs(p) + st.done + [st.current] == Segs(p) + (st.done + [st.current]);
    }
  }

  lemma SegsAppend(p: string, q: string)
    requires Depth(p) == 0
    ensures Segs(p + [','] + q) == Segs(p) + Segs(q)
  {
    ScanAppend(p, q);
  }

  /** A text without a top-level comma is a single piece. */
  lemma {:induction false} ScanSingle(a: string)
    requires NoTopComma(a)
    ensures Scan(a) == ScanState([], a)
    decreases |a|
  {
    if a != [] {
      var a' := a[..|a| - 1];
      var c := a[|a| - 1];
      assert NoTopComma(a') by {
        forall i | 0 <= i < |a'| && a'[i] == ','
          ensures Depth(a'[..i]) != 0
        {
          assert a'[..i] == a[..i];
        }
      }
      ScanSingle(a');
      assert a' + [c] == a;
      ScanSnoc(a', c);
    }
  }

  /** No piece is longer than the text. */
  lemma {:induction false} SegsLength(s: string)
    ensures |Scan(s).current| <= |s|
    ensures forall k :: 0 <= k < |Scan(s).done| ==> |Scan(s).done[k]| <= |s|
    decreases |s|
  {
    if s != [] {
      var init := s[..|s| - 1];
      assert s == init + [s[|s| - 1]];
      ScanSnoc(init, s[|s| - 1]);
      SegsLength(init);
    }
  }

  /** A non-empty text always yields at least one argument. */
  lemma TypeArgumentsNonEmpty(s: string)
    requires s != []
    ensures TypeArguments(s) != []
  {
    SegsJoin(s);
    if Scan(s).done == [] {
      assert Segs(s) == [Scan(s).current];
    }
  }

  /** The number of arguments is the number of top-level commas, plus one when text
      follows the last of them. */
  lemma TypeArgumentsCount(s: string)
    ensures |TypeArguments(s)| == TopCommas(s) + (if Scan(s).current != [] then 1 else 0)
  {
    SegsCount(s);
  }

  /** Every argument is trimmed and no longer than the text it came from; this bounds
      the generator's recursion on type arguments. */
  lemma TypeArgumentsShape(s: string)
    ensures forall k :: 0 <= k < |TypeArguments(s)| ==>
      Trimmed(TypeArguments(s)[k]) && |TypeArguments(s)[k]| <= |s|
  {
    SegsLength(s);
  }

  /** A well-formed argument: trimmed, balanced, and free of top-level commas. */
  predicate WellFormedArg(a: string) {
    Trimmed(a) && Depth(a) == 0 && NoTopComma(a)
  }

  /** White space has no brackets. */
  lemma {:induction false} DepthOfSpace(w: string)
    requires AllSpace(w)
    ensures Depth(w) == 0
    decreases |w|
  {
    if w != [] {
      DepthOfSpace(w[..|w| - 1]);
    }
  }

  lemma PaddedArg(w: string, a: string)
    requires AllSpace(w) && WellFormedArg(a)
    ensures Depth(w + a) == 0 && NoTopComma(w + a) && TrimSpace(w + a) == a
  {
    DepthOfSpace(w);
    DepthAppend(w, a);
    PaddedNoTopComma(w, a);
    assert TrimSpace(w + a) == a by {
      TrimSpaceSpacePrefix(w, a);
      TrimSpaceOfTrimmed(a);
    }
  }

  lemma PaddedNoTopComma(w: string, a: string)
    requires AllSpace(w) && NoTopComma(a)
    ensures NoTopComma(w + a)
  {
    DepthOfSpace(w);
    forall i | 0 <= i < |w + a| && (w + a)[i] == ','
      ensures Depth((w + a)[..i]) != 0
    {
      if i < |w| {
        assert false;
      }
      assert (w + a)[..i] == w + a[..i - |w|];
      DepthAppend(w, a[..i - |w|]);
    }
  }

  /** The scan of well-formed arguments joined by a comma and white space: every
      argument but the last is a closed piece, the last is the piece being read. */
  predicate ScansAs(j: string, args: seq<string>)
    requires args != []
  {
    && Depth(j) == 0
    && TrimAll(Scan(j).done) == args[..|args| - 1]
    && TrimSpace(Scan(j).current) == Last(args)
    && (Last(args) != [] ==> Scan(j).current != [])
  }

  lemma ScanOfJoinStep(j: string, init: seq<string>, w: string, x: string)
    requires init != [] && ScansAs(j, init)
    requires AllSpace(w) && WellFormedArg(x)
    ensures ScansAs(j + [','] + (w + x), init + [x])
  {
    var done := Scan(j).done + [Scan(j).current];
    ScanOfPaddedArg(w, x);
    ScanAfterComma(j, w + x);
    assert TrimAll(done) == init by {
      TrimAllSnoc(Scan(j).done, Scan(j).current);
      InitLast(init);
    }
    ScansAsIntro(j + [','] + (w + x), init, x, done, w + x);
  }

  /** A padded well-formed argument is read as a single piece. */
  lemma ScanOfPaddedArg(w: string, x: string)
    requires AllSpace(w) && WellFormedArg(x)
    ensures Depth(w + x) == 0 && TrimSpace(w + x) == x && Scan(w + x) == ScanState([], w + x)
  {
    PaddedArg(w, x);
    ScanSingle(w + x);
  }

  /** A balanced piece after a top-level comma: the comma closes what came before. */
  lemma ScanAfterComma(j: string, y: string)
    requires Depth(j) == 0 && Depth(y) == 0 && Scan(y) == ScanState([], y)
    ensures Scan(j + [','] + y) == ScanState(Scan(j).done + [Scan(j).current], y)
    ensures Depth(j + [','] + y) == 0
  {
    ScanAppend(j, y);
    DepthAfterComma(j, y);
  }

  lemma ScanOfOneArg(a: string)
    requires WellFormedArg(a)
    ensures ScansAs(a, [a])
  {
    ScanSingle(a);
    TrimSpaceOfTrimmed(a);
  }

  lemma ScansAsIntro(s: string, init: seq<string>, x: string, done: seq<string>, current: string)
    requires Depth(s) == 0 && Scan(s) == ScanState(done, current)
    requires TrimAll(done) == init && TrimSpace(current) == x && (x != [] ==> current != [])
    ensures ScansAs(s, init + [x])
  {
    assert (init + [x])[..|init|] == init;
  }

  lemma {:induction false} ScanOfJoin(args: seq<string>, w: string)
    requires args != [] && AllSpace(w)
    requires forall k :: 0 <= k < |args| ==> WellFormedArg(args[k])
    ensures ScansAs(Join(args, [','] + w), args)
    decreases |args|
  {
    var sep := [','] + w;
    if |args| == 1 {
      ScanOfOneArg(args[0]);
    } else {
      var init := args[..|args| - 1];
      var x := Last(args);
      var j := Join(init, sep);
      assert Join(args, sep) == j + [','] + (w + x) by {
        assert args == init + [x];
        JoinSnoc(init, x, sep);
        AppendAssoc(j, sep, x);
        AppendAssoc(j, [','], w);
        AppendAssoc(j + [','], w, x);
      }
      assert ScansAs(j, init) by {
        forall k | 0 <= k < |init| ensures WellFormedArg(init[k]) {
          assert init[k] == args[k];
        }
        ScanOfJoin(init, w);
      }
      ScanOfJoinStep(j, init, w, x);
    }
  }

  /** Joining a non-empty list of well-formed arguments, the last one non-empty, with a
      comma and optional white space, and splitting again, gives back the list. */
  lemma TypeArgumentsRoundTrip(args: seq<string>, w: string)
    requires args != [] && Last(args) != [] && AllSpace(w)
    requires forall k :: 0 <= k < |args| ==> WellFormedArg(args[k])
    ensures TypeArguments(Join(args, [','] + w)) == args
  {
    ScanOfJoin(args, w);
    TypeArgumentsOfScan(Join(args, [','] + w), args);
  }

  lemma TypeArgumentsOfScan(j: string, args: seq<string>)
    requires args != [] && Last(args) != [] && ScansAs(j, args)
    ensures TypeArguments(j) == args
  {
    InitLast(args);
  }

  /** A name without brackets or commas is a well-formed argument when trimmed. */
  lemma {:induction false} PlainArg(a: string)
    requires '[' !in a && ']' !in a && ',' !in a && Trimmed(a)
    ensures WellFormedArg(a)
    decreases |a|
  {
    if a != [] {
      var a' := a[..|a| - 1];
      assert '[' !in a' && ']' !in a' && ',' !in a' by {
        assert forall c :: c in a' ==> c in a;
      }
      PlainDepth(a');
    }
  }

  lemma {:induction false} PlainDepth(a: string)
    requires '[' !in a && ']' !in a
    ensures Depth(a) == 0
    decreases |a|
  {
    if a != [] {
      var a' := a[..|a| - 1];
      assert '[' !in a' && ']' !in a' by {
        assert forall c :: c in a' ==> c in a;
      }
      PlainDepth(a');
    }
  }

  /** An instantiation `Base[A, B]` of plain names is itself a well-formed argument:
      its commas are nested. */
  lemma NestedArg(base: string, inner: string)
    requires '[' !in base && ']' !in base && ',' !in base && Trimmed(base)
    requires '[' !in inner && ']' !in inner
    ensures WellFormedArg(base + "[" + inner + "]")
  {
    var open := base + "[";
    var t := open + inner + "]";
    PlainDepth(base);
    PlainDepth(inner);
    ScanSnoc(base, '[');
    DepthAppend(open, inner);
    ScanSnoc(open + inner, ']');
    assert Depth(open) == 1;
    forall i | 0 <= i < |t| && t[i] == ','
      ensures Depth(t[..i]) != 0
    {
      if i < |base| {
        assert false;
      }
      assert |base| < i < |t| - 1;
      var k := i - |open|;
      assert t[..i] == open + inner[..k];
      PlainDepth(inner[..k]);
      DepthAppend(open, inner[..k]);
    }
  }

  lemma JoinPair(a: string, b: string, sep: string)
    ensures Join([a, b], sep) == a + sep + b
  {
    assert [a, b][1..] == [b];
  }

  /** The example of the source's comment: a nested argument keeps its inner comma. */
  lemma SplitTypeArgumentsExample()
    ensures TypeArguments("ReportItem, Pair[Details, Info]") == ["ReportItem", "Pair[Details, Info]"]
  {
    var args := ["ReportItem", "Pair[Details, Info]"];
    assert forall k :: 0 <= k < |args| ==> WellFormedArg(args[k]) by {
      ExampleArgs();
    }
    assert Join(args, [','] + " ") == "ReportItem, Pair[Details, Info]" by {
      ExampleJoin();
    }
    TypeArgumentsRoundTrip(args, " ");
  }

  lemma ExampleArgs()
    ensures WellFormedArg("ReportItem") && WellFormedArg("Pair[Details, Info]")
  {
    assert WellFormedArg("ReportItem") by {
      PlainArg("ReportItem");
    }
    NestedExampleArg();
  }

  lemma NestedExampleArg()
    ensures WellFormedArg("Pair[Details, Info]")
  {
    var base, inner := "Pair", "Details, Info";
    assert '[' !in base && ']' !in base && ',' !in base && Trimmed(base);
    assert '[' !in inner && ']' !in inner;
    NestedArg(base, inner);
    PairSpelling();
  }

  lemma PairSpelling()
    ensures "Pair" + "[" + "Details, Info" + "]" == "Pair[Details, Info]"
  {
  }

  lemma ExampleJoin()
    ensures Join(["ReportItem", "Pair[Details, Info]"], [','] + " ") == "ReportItem, Pair[Details, Info]"
  {
    JoinPair("ReportItem", "Pair[Details, Info]", [','] + " ");
  }

  // ---------------------------------------------------------------------------
  // ParseGenericType
  // ---------------------------------------------------------------------------

  /** The input has no type arguments: no '[', no ']', or the last ']' at most one
      position after the first '['. */
  predicate NotGeneric(typ: string) {
    var start := IndexOf(typ, '[');
    var end := LastIndexOf(typ, ']');
    start == -1 || end == -1 || end <= start + 1
  }

  /** The base type and the type arguments of `Base[A, B]`. A non-generic input comes
      back unchanged with no arguments, a generic one has arguments, and every argument
      is shorter than the input. */
  function ParseGenericType(typ: string): (r: (string, seq<string>))
    ensures NotGeneric(typ) ==> r == (typ, [])
    ensures r.1 == [] <==> NotGeneric(typ)
    ensures forall k :: 0 <= k < |r.1| ==> |r.1[k]| < |typ|
  {
    var start := IndexOf(typ, '[');
    var end := LastIndexOf(typ, ']');
    if start == -1 || end == -1 || end <= start + 1 then (typ, [])
    else
      var argsStr := typ[start + 1..end];
      TypeArgumentsNonEmpty(argsStr);
      TypeArgumentsShape(argsStr);
      (TrimSpace(typ[..start]), TypeArguments(argsStr))
  }

  lemma {:induction false} JoinLength(parts: seq<string>, sep: string)
    requires parts != []
    ensures |Join(parts, sep)| >= |Last(parts)|
    decreases |parts|
  {
    if |parts| > 1 {
      JoinLength(parts[1..], sep);
    }
  }

  /** Writing a trimmed base name and a list of arguments as `Base[A, B]` and parsing
      it gives back the name and the list. */
  lemma ParseGenericTypeRoundTrip(base: string, args: seq<string>, w: string)
    requires '[' !in base && Trimmed(base)
    requires args != [] && Last(args) != [] && AllSpace(w)
    requires forall k :: 0 <= k < |args| ==> WellFormedArg(args[k])
    ensures ParseGenericType(base + "[" + Join(args, [','] + w) + "]") == (base, args)
  {
    var j := Join(args, [','] + w);
    var typ := base + "[" + j + "]";
    assert |j| > 0 by {
      JoinLength(args, [','] + w);
    }
    assert IndexOf(typ, '[') == |base| && typ[..|base|] == base by {
      assert typ[|base|] == '[';
      assert typ[..|base|] == base;
    }
    assert LastIndexOf(typ, ']') == |typ| - 1;
    assert typ[|base| + 1..|typ| - 1] == j;
    TrimSpaceOfTrimmed(base);
    TypeArgumentsRoundTrip(args, w);
  }

  /** The examples of parser_test.go. */
  lemma ParseGenericTypeSingleExample()
    ensures ParseGenericType("Pagination[ReportItem]") == ("Pagination", ["ReportItem"])
  {
    var args := ["ReportItem"];
    assert forall k :: 0 <= k < |args| ==> WellFormedArg(args[k]) by {
      PlainArg("ReportItem");
    }
    assert "Pagination" + "[" + Join(args, [','] + "") + "]" == "Pagination[ReportItem]" by {
      SingleSpelling();
    }
    assert '[' !in "Pagination" && Trimmed("Pagination");
    ParseGenericTypeRoundTrip("Pagination", args, "");
  }

  lemma SingleSpelling()
    ensures "Pagination" + "[" + Join(["ReportItem"], [','] + "") + "]" == "Pagination[ReportItem]"
  {
    assert Join(["ReportItem"], [','] + "") == "ReportItem";
  }

  lemma ParseGenericTypePairExample()
    ensures ParseGenericType("Map[string, int]") == ("Map", ["string", "int"])
  {
    var args := ["string", "int"];
    assert forall k :: 0 <= k < |args| ==> WellFormedArg(args[k]) by {
      PlainArg("string");
      PlainArg("int");
    }
    assert "Map" + "[" + Join(args, [','] + " ") + "]" == "Map[string, int]" by {
      PairOfScalarsSpelling();
    }
    assert '[' !in "Map" && Trimmed("Map");
    ParseGenericTypeRoundTrip("Map", args, " ");
  }

  lemma PairOfScalarsSpelling()
    ensures "Map" + "[" + Join(["string", "int"], [','] + " ") + "]" == "Map[string, int]"
  {
    JoinPair("string", "int", [','] + " ");
  }

  lemma ParseGenericTypePlainExample()
    ensures ParseGenericType("NonGenericType") == ("NonGenericType", [])
  {
    assert '[' !in "NonGenericType";
    ParseGenericTypeOfPlain("NonGenericType");
  }

  /** A name without '[' has no type arguments. */
  lemma ParseGenericTypeOfPlain(typ: string)
    requires '[' !in typ
    ensures ParseGenericType(typ) == (typ, [])
  {
  }

  // ---------------------------------------------------------------------------
  // Scalar types
  // ---------------------------------------------------------------------------

  /** The names IsBasicType recognises. */
  const BasicTypes: seq<string> := [
    "bool", "string",
    "int", "int8", "int16", "int32", "int64",
    "uint", "uint8", "uint16", "uint32", "uint64", "uintptr",
    "byte", "rune",
    "float32", "float64",
    "complex64", "complex128"]

  method IsBasicType(typ: string) returns (b: bool)
    ensures b <==> typ in BasicTypes
  {
    for i := 0 to |BasicTypes|
      invariant typ !in BasicTypes[..i]
    {
      if typ == BasicTypes[i] {
        return true;
      }
    }
    assert BasicTypes[..|BasicTypes|] == BasicTypes;
    return false;
  }

  /** The list holds 19 distinct names. */
  lemma BasicTypesDistinct()
    ensures |BasicTypes| == 19
    ensures forall i, j :: 0 <= i < j < |BasicTypes| ==> BasicTypes[i] != BasicTypes[j]
  {
  }

  // ---------------------------------------------------------------------------
  // Qualified names
  // ---------------------------------------------------------------------------

  /** (base type, package) of a type name: the whole name and no package without a
      dot, the two sides of a single dot, and nothing at all with two dots or more. */
  function ResolveType(typ: string): (r: (string, string))
    ensures '.' !in typ ==> r == (typ, "")
    ensures Count(typ, '.') == 1 ==> typ == r.1 + "." + r.0 && '.' !in r.0 && '.' !in r.1
    ensures Count(typ, '.') >= 2 ==> r == ("", "")
  {
    CountZero(typ, '.');
    if '.' in typ then
      var parts := Split(typ, '.');
      if |parts| != 2 then ("", "") else (parts[1], parts[0])
    else (typ, "")
  }

  /** (package, struct name) of a qualified name: the two sides of exactly one dot,
      otherwise no package and the whole name. */
  function SplitQualifiedName(qualifiedName: string): (r: (string, string))
    ensures Count(qualifiedName, '.') == 1 ==>
      qualifiedName == r.0 + "." + r.1 && '.' !in r.0 && '.' !in r.1
    ensures Count(qualifiedName, '.') != 1 ==> r == ("", qualifiedName)
  {
    var parts := Split(qualifiedName, '.');
    if |parts| == 2 then (parts[0], parts[1]) else ("", qualifiedName)
  }

  lemma ResolveTypeQualified(pkg: string, name: string)
    requires '.' !in pkg && '.' !in name
    ensures ResolveType(pkg + "." + name) == (name, pkg)
  {
    SplitPair(pkg, name, '.');
  }

  lemma SplitQualifiedNameRoundTrip(pkg: string, name: string)
    requires '.' !in pkg && '.' !in name
    ensures SplitQualifiedName(pkg + "." + name) == (pkg, name)
  {
    SplitPair(pkg, name, '.');
  }

  /** The two splitters agree, up to the order of the pair, exactly when the name has
      at most one dot; with more they differ (ResolveType drops the name). */
  lemma ResolveTypeVsSplitQualifiedName(typ: string)
    ensures ResolveType(typ) == (SplitQualifiedName(typ).1, SplitQualifiedName(typ).0)
      <==> Count(typ, '.') <= 1
  {
    CountZero(typ, '.');
  }

  // ---------------------------------------------------------------------------
  // Type parameter substitution
  // ---------------------------------------------------------------------------

  /** The type with each parameter name replaced, in parameter order. */
  function Substitute(typ: string, params: seq<TypeParam>, concrete: seq<string>): string
    requires |params| == |concrete|
    decreases |params|
  {
    if params == [] then typ
    else
      var n := |params| - 1;
      ReplaceAll(Substitute(typ, params[..n], concrete[..n]), params[n].name, concrete[n])
  }

  method ReplaceTypeParams(typ: string, typeParams: seq<TypeParam>, concreteTypes: seq<string>)
    returns (r: string)
    ensures |typeParams| != |concreteTypes| ==> r == typ
    ensures |typeParams| == |concreteTypes| ==> r == Substitute(typ, typeParams, concreteTypes)
  {
    if |typeParams| != |concreteTypes| {
      return typ;
    }
    r := typ;
    for i := 0 to |typeParams|
      invariant r == Substitute(typ, typeParams[..i], concreteTypes[..i])
    {
      assert typeParams[..i + 1][..i] == typeParams[..i];
      assert concreteTypes[..i + 1][..i] == concreteTypes[..i];
      r := ReplaceAll(r, typeParams[i].name, concreteTypes[i]);
    }
    assert typeParams[..|typeParams|] == typeParams;
    assert concreteTypes[..|concreteTypes|] == concreteTypes;
  }

  function Names(params: seq<TypeParam>): (r: seq<string>)
    ensures |r| == |params|
    ensures forall k :: 0 <= k < |params| ==> r[k] == params[k].name
  {
    seq(|params|, k requires 0 <= k < |params| => params[k].name)
  }

  /** Substituting every parameter by its own name changes nothing. */
  lemma {:induction false} SubstituteIdentity(typ: string, params: seq<TypeParam>)
    ensures Substitute(typ, params, Names(params)) == typ
    decreases |params|
  {
    if params != [] {
      var n := |params| - 1;
      assert Names(params)[..n] == Names(params[..n]);
      SubstituteIdentity(typ, params[..n]);
      ReplaceAllSelf(typ, params[n].name);
    }
  }

  /** Parameters whose non-empty names do not occur leave the type unchanged. */
  lemma {:induction false} SubstituteAbsent(typ: string, params: seq<TypeParam>, concrete: seq<string>)
    requires |params| == |concrete|
    requires forall k :: 0 <= k < |params| ==> params[k].name != [] && !Occurs(typ, params[k].name)
    ensures Substitute(typ, params, concrete) == typ
    decreases |params|
  {
    if params != [] {
      var n := |params| - 1;
      SubstituteAbsent(typ, params[..n], concrete[..n]);
      ReplaceAllAbsent(typ, params[n].name, concrete[n]);
    }
  }

  /** The example of the source's comment. */
  lemma SubstituteExample()
    ensures Substitute("[]T", [TypeParam("T")], ["ReportItem"]) == "[]ReportItem"
  {
    assert [TypeParam("T")][..0] == [];
    var s := "[]T";
    assert ReplaceAll(s[2..], "T", "ReportItem") == "ReportItem" by {
      assert s[2..] == "T";
      assert "T"[1..] == [];
    }
    assert ReplaceAll(s[1..], "T", "ReportItem") == "]ReportItem" by {
      assert s[1..][1..] == s[2..];
    }
  }

  // ---------------------------------------------------------------------------
  // JSON tags (ExtractJSONTag)
  // ---------------------------------------------------------------------------

  /** The first piece that starts with p, or -1 when there is none. */
  function FirstWithPrefix(pieces: seq<string>, p: string): (k: int)
    ensures -1 <= k < |pieces|
    ensures k == -1 <==> forall j :: 0 <= j < |pieces| ==> !HasPrefix(pieces[j], p)
    ensures 0 <= k ==> HasPrefix(pieces[k], p) && forall j :: 0 <= j < k ==> !HasPrefix(pieces[j], p)
  {
    if pieces == [] then -1
    else if HasPrefix(pieces[0], p) then 0
    else
      var k := FirstWithPrefix(pieces[1..], p);
      if k < 0 then -1 else k + 1
  }

  /** The pieces of a struct tag: backquotes trimmed, then split at spaces. */
  function TagPieces(tag: string): seq<string> {
    Split(TrimChar(tag, '`'), ' ')
  }

  /** The name part of a `json:"name,options"` piece: the text before the first comma
      once the prefix and the surrounding quotes are gone. */
  function JSONName(piece: string): string {
    Split(TrimChar(TrimPrefix(piece, "json:"), '"'), ',')[0]
  }

  /** The name a struct tag gives: the name part of the first piece that starts with
      `json:`; the field name when there is no such piece or its name part is empty. */
  function JSONTagName(tag: string, fieldName: string): string {
    var tags := TagPieces(tag);
    var k := FirstWithPrefix(tags, "json:");
    if k < 0 then fieldName
    else if JSONName(tags[k]) != [] then JSONName(tags[k])
    else fieldName
  }

  method ExtractJSONTag(tag: string, fieldName: string) returns (r: string)
    ensures r == JSONTagName(tag, fieldName)
  {
    var trimmed := TrimChar(tag, '`');
    var tags := Split(trimmed, ' ');
    assert tags == TagPieces(tag);
    for i := 0 to |tags|
      invariant forall j :: 0 <= j < i ==> !HasPrefix(tags[j], "json:")
    {
      var t := tags[i];
      if HasPrefix(t, "json:") {
        var jsonTag := TrimPrefix(t, "json:");
        jsonTag := TrimChar(jsonTag, '"');
        var jsonParts := Split(jsonTag, ',');
        JSONTagNameAt(tag, fieldName, i);
        if |jsonParts| > 0 && jsonParts[0] != [] {
          return jsonParts[0];
        }
        return fieldName;
      }
      NoPrefixStep(tags, i, "json:");
    }
    return fieldName;
  }

  lemma NoPrefixStep(pieces: seq<string>, i: int, p: string)
    requires 0 <= i < |pieces| && !HasPrefix(pieces[i], p)
    requires forall j :: 0 <= j < i ==> !HasPrefix(pieces[j], p)
    ensures forall j :: 0 <= j < i + 1 ==> !HasPrefix(pieces[j], p)
  {
  }

  /** The name a tag gives when its first `json:` piece is the i-th one. */
  lemma JSONTagNameAt(tag: string, fieldName: string, i: int)
    requires 0 <= i < |TagPieces(tag)| && HasPrefix(TagPieces(tag)[i], "json:")
    requires forall j :: 0 <= j < i ==> !HasPrefix(TagPieces(tag)[j], "json:")
    ensures var name := JSONName(TagPieces(tag)[i]);
      JSONTagName(tag, fieldName) == if name != [] then name else fieldName
  {
    assert FirstWithPrefix(TagPieces(tag), "json:") == i;
  }

  /** The name part holds no comma, and no space when the piece has none. */
  lemma JSONNameShape(piece: string)
    ensures ',' !in JSONName(piece)
    ensures ' ' !in piece ==> ' ' !in JSONName(piece)
  {
    var s := TrimChar(TrimPrefix(piece, "json:"), '"');
    SplitHead(s, ',');
  }

  /** The name is either the field name or a non-empty word without commas or spaces. */
  lemma JSONTagNameShape(tag: string, fieldName: string)
    ensures var r := JSONTagName(tag, fieldName);
      r == fieldName || (r != [] && ',' !in r && ' ' !in r)
  {
    var tags := TagPieces(tag);
    var k := FirstWithPrefix(tags, "json:");
    if 0 <= k {
      JSONNameShape(tags[k]);
    }
  }

  lemma {:induction false} SplitFirst(a: string, b: string, c: char)
    requires c !in a
    ensures Split(a + [c] + b, c)[0] == a
  {
    var s := a + [c] + b;
    assert s[|a|] == c;
    assert s[..|a|] == a;
    assert IndexOf(s, c) == |a|;
  }

  lemma QuotedHasNoSpace(inner: string)
    requires ' ' !in inner
    ensures ' ' !in "json:" + (['"'] + inner + ['"'])
  {
    assert ' ' !in "json:";
  }

  /** A single `json:"..."` tag in backquotes is read by its first comma-separated part. */
  lemma JSONTagNameOfQuoted(inner: string, fieldName: string)
    requires inner != [] && inner[0] != '"' && Last(inner) != '"' && ' ' !in inner
    ensures var first := Split(inner, ',')[0];
      JSONTagName("`json:\"" + inner + "\"`", fieldName) == if first != [] then first else fieldName
  {
    var t := "json:" + (['"'] + inner + ['"']);
    assert "`json:\"" + inner + "\"`" == ['`'] + t + ['`'];
    QuotedPiece(inner);
    TagPiecesOfWrapped(t);
    JSONNameOfQuoted(inner);
  }

  lemma JSONNameOfQuoted(inner: string)
    requires inner != [] && inner[0] != '"' && Last(inner) != '"'
    ensures JSONName("json:" + (['"'] + inner + ['"'])) == Split(inner, ',')[0]
  {
    var q := ['"'] + inner + ['"'];
    var t := "json:" + q;
    assert t[..5] == "json:";
    assert t[5..] == q;
    TrimCharWrapped('"', inner);
  }

  lemma QuotedPiece(inner: string)
    requires ' ' !in inner
    ensures var t := "json:" + (['"'] + inner + ['"']);
      ' ' !in t && t[0] == 'j' && t[|t| - 1] == '"' && HasPrefix(t, "json:")
  {
    var t := "json:" + (['"'] + inner + ['"']);
    assert ' ' !in "json:";
    assert t[..5] == "json:";
  }

  lemma TagPiecesOfWrapped(t: string)
    requires t != [] && t[0] != '`' && t[|t| - 1] != '`' && ' ' !in t && HasPrefix(t, "json:")
    ensures TagPieces(['`'] + t + ['`']) == [t]
    ensures FirstWithPrefix([t], "json:") == 0
  {
    TrimCharWrapped('`', t);
    SplitNoSeparator(t, ' ');
  }

  lemma OptionsFirstPart(name: string, options: string)
    requires ',' !in name && (options == [] || options[0] == ',')
    ensures Split(name + options, ',')[0] == name
  {
    if options == [] {
      assert name + options == name;
      SplitNoSeparator(name, ',');
    } else {
      var o := options[1..];
      assert name + options == name + [','] + o;
      SplitFirst(name, o, ',');
    }
  }

  /** A tag `json:"name"` or `json:"name,options"`, in backquotes, gives back the name. */
  lemma JSONTagNameRoundTrip(name: string, options: string, fieldName: string)
    requires name != [] && ',' !in name && ' ' !in name && '"' !in name
    requires options == [] || options[0] == ','
    requires ' ' !in options && '"' !in options
    ensures JSONTagName("`json:\"" + name + options + "\"`", fieldName) == name
  {
    var inner := name + options;
    InnerOfOptions(name, options);
    OptionsFirstPart(name, options);
    JSONTagNameOfQuoted(inner, fieldName);
    AppendAssoc("`json:\"", name, options);
  }

  lemma InnerOfOptions(name: string, options: string)
    requires name != [] && ' ' !in name && '"' !in name
    requires ' ' !in options && '"' !in options
    ensures var inner := name + options;
      inner != [] && inner[0] != '"' && Last(inner) != '"' && ' ' !in inner
  {
    var inner := name + options;
    assert inner[0] == name[0];
    assert Last(inner) in inner;
  }

  // ---------------------------------------------------------------------------
  // Rendering and parsing agree
  // ---------------------------------------------------------------------------

  /** A rendered `pkg.Name` selector resolves back to its two parts. */
  lemma ResolveTypeOfSelector(pkg: string, name: string)
    requires '.' !in pkg && '.' !in name
    ensures ResolveType(ExprToString(SelectorExpr(Ident(pkg), name))) == (name, pkg)
  {
    ResolveTypeQualified(pkg, name);
  }

  /** A rendered single-argument instantiation `Base[Arg]` parses back to its parts. */
  lemma ParseGenericTypeOfIndex(base: string, arg: string)
    requires '[' !in base && Trimmed(base)
    requires arg != [] && WellFormedArg(arg)
    ensures ParseGenericType(ExprToString(IndexExpr(Ident(base), Ident(arg)))) == (base, [arg])
  {
    assert Join([arg], [','] + "") == arg;
    ParseGenericTypeRoundTrip(base, [arg], "");
  }
}
