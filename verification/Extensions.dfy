/**
 `CheckExtensionExists` of util/EGLWindow.cpp: looking for a name in a list of extension names
 separated by single spaces, by a substring search in padded strings.
 */
module Extensions {

  predicate OccursAt(s: string, t: string, k: nat) {
    k + |t| <= |s| && s[k..k + |t|] == t
  }

  /** `std::string::find(t) != npos`. */
  predicate Contains(s: string, t: string) {
    exists k: nat | k <= |s| :: OccursAt(s, t, k)
  }

  predicate CheckExtensionExists(allExtensions: string, extName: string) {
    Contains(" " + allExtensions + " ", " " + extName + " ")
  }

  /** The tokens between single spaces, empty ones included. */
  function Split(s: string): (tokens: seq<string>)
    ensures |tokens| > 0
  {
    if s == "" then [""]
    else
      var rest := Split(s[1..]);
      if s[0] == ' ' then [""] + rest else [[s[0]] + rest[0]] + rest[1..]
  }

  /** The tokens with a single space between neighbours. */
  function Join(tokens: seq<string>): string
    requires |tokens| > 0
  {
    if |tokens| == 1 then tokens[0] else tokens[0] + " " + Join(tokens[1..])
  }

  lemma {:induction false} JoinSplit(s: string)
    ensures Join(Split(s)) == s
  {
    if s == "" {
    } else {
      JoinSplit(s[1..]);
      var rest := Split(s[1..]);
      var tokens := Split(s);
      if s[0] == ' ' {
        assert tokens[1..] == rest;
      } else {
        assert tokens[1..] == rest[1..];
        assert s == [s[0]] + s[1..];
      }
    }
  }

  /** One more character in front: a new first token, or a longer one. */
  function Prepend(c: char, tokens: seq<string>): seq<string>
    requires |tokens| > 0
  {
    if c == ' ' then [""] + tokens else [[c] + tokens[0]] + tokens[1..]
  }

  lemma SplitStep(c: char, t: string)
    ensures Split([c] + t) == Prepend(c, Split(t))
  {
    assert ([c] + t)[1..] == t;
  }

  lemma PrependConcat(c: char, x: seq<string>, y: seq<string>)
    requires |x| > 0
    ensures Prepend(c, x + y) == Prepend(c, x) + y
  {
  }

  lemma {:induction false} SplitConcat(a: string, b: string)
    ensures Split(a + " " + b) == Split(a) + Split(b)
  {
    if a == "" {
      assert a + " " + b == [' '] + b;
      SplitStep(' ', b);
    } else {
      hide Split, Prepend;
      SplitConcat(a[1..], b);
      assert a == [a[0]] + a[1..];
      assert a + " " + b == [a[0]] + (a[1..] + " " + b);
      SplitStep(a[0], a[1..]);
      SplitStep(a[0], a[1..] + " " + b);
      PrependConcat(a[0], Split(a[1..]), Split(b));
    }
  }

  lemma {:induction false} JoinConcat(x: seq<string>, y: seq<string>)
    requires |x| > 0 && |y| > 0
    ensures Join(x + y) == Join(x) + " " + Join(y)
  {
    if |x| == 1 {
      assert (x + y)[1..] == y;
    } else {
      JoinConcat(x[1..], y);
      assert (x + y)[1..] == x[1..] + y;
    }
  }

  lemma {:induction false} SplitWord(name: string)
    requires ' ' !in name
    ensures Split(name) == [name]
  {
    if name == "" {
    } else {
      SplitWord(name[1..]);
      assert name == [name[0]] + name[1..];
      assert name[0] in name;
    }
  }

  /** The tokens of `name` occur side by side among the tokens of `all`. */
  ghost predicate TokensOccur(all: string, name: string) {
    exists before: seq<string>, after: seq<string> :: Split(all) == before + Split(name) + after
  }

  /** The string is `name`, with or without text split off by a space before and after it. */
  ghost predicate NameAt(all: string, before: string, name: string, after: string) {
    " " + all + " " == before + (" " + name + " ") + after
  }

  lemma ContainsIff(s: string, t: string)
    ensures Contains(s, t) <==> exists before, after :: s == before + t + after
  {
    if Contains(s, t) {
      var k: nat :| k <= |s| && OccursAt(s, t, k);
      assert s == s[..k] + t + s[k + |t|..];
    }
    forall before, after | s == before + t + after ensures Contains(s, t) {
      assert OccursAt(s, t, |before|);
    }
  }

  lemma FoundAt(all: string, name: string)
    ensures CheckExtensionExists(all, name) <==> exists before, after :: NameAt(all, before, name, after)
  {
    var s, t := " " + all + " ", " " + name + " ";
    ContainsIff(s, t);
    if exists before, after :: s == before + t + after {
      var before, after :| s == before + t + after;
      assert NameAt(all, before, name, after);
    }
    if exists before, after :: NameAt(all, before, name, after) {
      var before, after :| NameAt(all, before, name, after);
      assert s == before + t + after;
    }
  }

  lemma FoundThenTokens(all: string, before: string, name: string, after: string)
    requires NameAt(all, before, name, after)
    ensures TokensOccur(all, name)
  {
    hide Split;
    var s := " " + all + " ";
    assert all == s[1..|s| - 1];
    if before == "" && after == "" {
      assert all == name;
      assert Split(all) == [] + Split(name) + [];
    } else if before == "" {
      var rest := after[..|after| - 1];
      assert all == name + " " + rest;
      SplitConcat(name, rest);
      assert Split(all) == [] + Split(name) + Split(rest);
    } else if after == "" {
      var start := before[1..];
      assert all == start + " " + name;
      SplitConcat(start, name);
      assert Split(all) == Split(start) + Split(name) + [];
    } else {
      var start, rest := before[1..], after[..|after| - 1];
      assert all == start + " " + (name + " " + rest);
      SplitConcat(start, name + " " + rest);
      SplitConcat(name, rest);
      assert Split(all) == Split(start) + Split(name) + Split(rest);
    }
  }

  lemma NameAlone(before: string, name: string, after: string)
    ensures NameAt(name, "", name, "")
    ensures NameAt(name + " " + after, "", name, after + " ")
    ensures NameAt(before + " " + name, " " + before, name, "")
    ensures NameAt(before + " " + (name + " " + after), " " + before, name, after + " ")
  {
  }

  lemma TokensThenFound(all: string, before: seq<string>, name: string, after: seq<string>)
    requires Split(all) == before + Split(name) + after
    ensures exists x, y :: NameAt(all, x, name, y)
  {
    hide Split, Join, NameAt;
    JoinSplit(all);
    JoinSplit(name);
    var n := Split(name);
    if before == [] && after == [] {
      assert before + n + after == n;
      NameAlone("", name, "");
    } else if before == [] {
      assert before + n + after == n + after;
      JoinConcat(n, after);
      NameAlone("", name, Join(after));
    } else if after == [] {
      assert before + n + after == before + n;
      JoinConcat(before, n);
      NameAlone(Join(before), name, "");
    } else {
      assert before + n + after == before + (n + after);
      JoinConcat(before, n + after);
      JoinConcat(n, after);
      NameAlone(Join(before), name, Join(after));
    }
  }

  /** For every name, spaces or not: found exactly when its tokens stand side by side in the list. */
  lemma CheckFindsTokens(all: string, name: string)
    ensures CheckExtensionExists(all, name) <==> TokensOccur(all, name)
  {
    FoundAt(all, name);
    if exists before, after :: NameAt(all, before, name, after) {
      var before, after :| NameAt(all, before, name, after);
      FoundThenTokens(all, before, name, after);
    }
    if TokensOccur(all, name) {
      var before: seq<string>, after: seq<string> :| Split(all) == before + Split(name) + after;
      TokensThenFound(all, before, name, after);
    }
  }

  /** A name without spaces is found exactly when it is one of the tokens. */
  lemma CheckFindsWord(all: string, name: string)
    requires ' ' !in name
    ensures CheckExtensionExists(all, name) <==> name in Split(all)
  {
    CheckFindsTokens(all, name);
    SplitWord(name);
    var tokens := Split(all);
    if name in tokens {
      var i :| 0 <= i < |tokens| && tokens[i] == name;
      assert tokens == tokens[..i] + [name] + tokens[i + 1..];
    }
  }
}
