/** Category codes and the dotted text of category paths. */
module CategoryPaths {
  import opened Text

  /** The alphabet of a category code: a lower-case letter, then letters, digits and underscores. */
  predicate ValidCode(code: string) {
    && 1 <= |code| <= 64
    && 'a' <= code[0] <= 'z'
    && forall c :: c in code ==> 'a' <= c <= 'z' || '0' <= c <= '9' || c == '_'
  }

  /** A code has 1 to 64 characters, the first a letter, the others letters, digits and underscores. */
  lemma CodesMean(code: string)
    ensures ValidCode(code) <==>
            && code != "" && |code| < 65 && code[0] in LETTERS
            && forall c :: c in code ==> c in LETTERS || c in DIGITS || c == '_'
  {
    Alphabet();
  }

  predicate ValidPath(path: seq<string>) {
    path != [] && forall i :: 0 <= i < |path| ==> ValidCode(path[i])
  }

  /** The text form of a path: its labels joined with dots. */
  function Render(path: seq<string>): string
    requires path != []
  {
    if |path| == 1 then path[0] else path[0] + "." + Render(path[1..])
  }

  /** The test a move uses to keep a category out of its own subtree. */
  predicate PathIsSelfOrDescendant(candidate: string, root: string) {
    || candidate == root
    || (root <= candidate && |root| < |candidate| && candidate[|root|] == '.')
  }

  lemma ConcatAssociates(a: string, b: string, c: string)
    ensures a + b + c == a + (b + c)
  {
  }

  /** Hanging a code below a path appends a dot and the code to its text. */
  lemma {:induction false} RenderAppend(path: seq<string>, code: string)
    requires path != []
    ensures Render(path + [code]) == Render(path) + "." + code
  {
    var longer := path + [code];
    if |path| == 1 {
      assert longer[1..] == [code];
    } else {
      assert longer[1..] == path[1..] + [code];
      RenderAppend(path[1..], code);
      var head, tail := path[0] + ".", Render(path[1..]);
      ConcatAssociates(head, tail, ".");
      ConcatAssociates(head, tail + ".", code);
    }
  }

  /** A dot-free head ends at the first dot of the text. */
  lemma FirstDot(x: string, s: string)
    requires '.' !in x
    ensures (x + "." + s)[|x|] == '.' && (x + "." + s)[|x| + 1..] == s
    ensures forall i :: 0 <= i < |x| ==> (x + "." + s)[i] == x[i] != '.'
  {
  }

  /** Where two dot-free heads are each followed by a dot, a prefix relation forces them to agree. */
  lemma HeadsAgree(x: string, s: string, y: string, t: string)
    requires '.' !in x && '.' !in y
    requires y + "." + t <= x + "." + s
    ensures x == y && t <= s
  {
    var long, short := x + "." + s, y + "." + t;
    FirstDot(x, s);
    FirstDot(y, t);
    var first := if |x| < |y| then |x| else |y|;
    assert short[first] == long[first];
    assert forall i :: 0 <= i < |y| ==> short[i] == long[i];
    assert forall i :: 0 <= i < |t| ==> t[i] == short[|y| + 1 + i] == long[|y| + 1 + i];
  }

  /** Dot-free text has no descendants. */
  lemma DotFreeText(text: string, root: string)
    requires '.' !in text && PathIsSelfOrDescendant(text, root)
    ensures text == root
  {
  }

  lemma CodesHaveNoDot(path: seq<string>)
    requires ValidPath(path)
    ensures forall i :: 0 <= i < |path| ==> '.' !in path[i]
  {
    forall i | 0 <= i < |path| ensures '.' !in path[i] {
      assert ValidCode(path[i]);
    }
  }

  /** The head of a rendered path of several labels. */
  lemma RenderHead(path: seq<string>)
    requires |path| > 1
    ensures Render(path) == path[0] + "." + Render(path[1..])
    ensures '.' in Render(path)
  {
    assert Render(path)[|path[0]|] == '.';
  }

  /** A descendant's text is its ancestor's text, a dot and more. */
  lemma {:induction false} PrefixRenders(path: seq<string>, root: seq<string>)
    requires ValidPath(path) && ValidPath(root) && root <= path
    ensures PathIsSelfOrDescendant(Render(path), Render(root))
  {
    if path == root {
    } else if |root| == 1 {
      RenderHead(path);
      assert Render(path)[|path[0]|] == '.';
    } else {
      RenderHead(path);
      RenderHead(root);
      PrefixRenders(path[1..], root[1..]);
      var head, long, short := path[0] + ".", Render(path[1..]), Render(root[1..]);
      assert |short| < |long| ==> (head + long)[|head + short|] == long[|short|];
    }
  }

  lemma {:induction false} RendersPrefix(path: seq<string>, root: seq<string>)
    requires ValidPath(path) && ValidPath(root)
    requires PathIsSelfOrDescendant(Render(path), Render(root))
    ensures root <= path
  {
    CodesHaveNoDot(path);
    CodesHaveNoDot(root);
    if |root| == 1 {
      if |path| > 1 {
        RenderHead(path);
        assert Render(path) != root[0];
        assert root[0] + "." + "" <= Render(path);
        HeadsAgree(path[0], Render(path[1..]), root[0], "");
      } else {
        DotFreeText(path[0], root[0]);
      }
    } else {
      RenderHead(root);
      if |path| == 1 {
        DotFreeText(path[0], Render(root));
        assert false;
      }
      RenderHead(path);
      HeadsAgree(path[0], Render(path[1..]), root[0], Render(root[1..]));
      var head, long, short := path[0] + ".", Render(path[1..]), Render(root[1..]);
      assert |short| < |long| ==> (head + long)[|head + short|] == long[|short|];
      RendersPrefix(path[1..], root[1..]);
      assert path == [path[0]] + path[1..] && root == [root[0]] + root[1..];
    }
  }

  /** The text test agrees with the label-sequence prefix relation. */
  lemma TextTestIsPrefix(path: seq<string>, root: seq<string>)
    requires ValidPath(path) && ValidPath(root)
    ensures PathIsSelfOrDescendant(Render(path), Render(root)) <==> root <= path
  {
    if root <= path {
      PrefixRenders(path, root);
    }
    if PathIsSelfOrDescendant(Render(path), Render(root)) {
      RendersPrefix(path, root);
    }
  }

  /** Joining with dots loses nothing. */
  lemma RenderInjective(a: seq<string>, b: seq<string>)
    requires ValidPath(a) && ValidPath(b) && Render(a) == Render(b)
    ensures a == b
  {
    RendersPrefix(a, b);
    RendersPrefix(b, a);
  }
}
