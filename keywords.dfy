/** The stock optional-value wrapper: an absent field of a service record
    (`undefined` in the catalog) is `None`. */
module Wrappers {

  datatype Option<+T> = None | Some(value: T) {

    /** `x || fallback`, for a field whose present value is never falsy. */
    function GetOr(fallback: T): T {
      match this
      case Some(v) => v
      case None => fallback
    }
  }
}

/** The keyword extractor nested inside the scorer (`getKeywords`,
    backend/index.js:47-52): lower-case the text, delete every character
    outside `[`, `\w`, `\s`, `'` and `-`, split it at runs of white space,
    and keep the pieces that are longer than two characters and not stop
    words. */
module KeywordExtraction {
  import opened Text
  import opened Wrappers

  /** The stop words, the empty word among them. */
  const StopWords: set<string> :=
    {"and", "or", "the", "a", "for", "in", "to", "of", "with", "on", "is", "it", ""}

  /** The characters the class `[^\[\w\s'-]` does NOT match, so that
      `replace` keeps them. */
  predicate IsKept(c: char) {
    c == '[' || IsWordChar(c) || IsSpace(c) || c == '\'' || c == '-'
  }

  /** `replace(/[^\[\w\s'-]/g, '')`: deletes the characters that are not
      kept, leaving the others in order. */
  function StripDisallowed(s: string): string {
    if s == [] then []
    else StripDisallowed(s[..|s| - 1]) + (if IsKept(s[|s| - 1]) then [s[|s| - 1]] else [])
  }

  /** What `replace` leaves is exactly the kept characters of the text. */
  lemma {:induction false} StripDisallowedChars(s: string)
    ensures forall c :: c in StripDisallowed(s) <==> c in s && IsKept(c)
  {
    if s != [] {
      var init := s[..|s| - 1];
      StripDisallowedChars(init);
      assert s == init + [s[|s| - 1]];
    }
  }

  /** `split(/\s+/)`: the pieces between maximal runs of white space, in
      order; a leading or trailing run yields an empty first or last piece,
      and the empty string splits into one empty piece. */
  function SplitWs(s: string): (r: seq<string>)
    ensures |r| >= 1
    decreases |s|
  {
    if s == [] then [[]]
    else if IsSpace(s[0]) then [[]] + SplitWs(TrimStart(s))
    else
      var rest := SplitWs(s[1..]);
      [[s[0]] + rest[0]] + rest[1..]
  }

  /** Every character of every piece of `split` comes from the split text
      and is not white space. */
  lemma {:induction false} SplitWsChars(s: string)
    ensures forall i, j :: 0 <= i < |SplitWs(s)| && 0 <= j < |SplitWs(s)[i]| ==>
      SplitWs(s)[i][j] in s && !IsSpace(SplitWs(s)[i][j])
    decreases |s|
  {
    if s == [] {
    } else if IsSpace(s[0]) {
      SplitWsChars(TrimStart(s));
    } else {
      SplitWsChars(s[1..]);
      SplitAtWord(s);
      var rest := SplitWs(s[1..]);
      var r := SplitWs(s);
      forall i, j | 0 <= i < |r| && 0 <= j < |r[i]| ensures r[i][j] in s && !IsSpace(r[i][j]) {
        if i == 0 && j > 0 {
          assert r[i][j] == rest[0][j - 1];
          assert rest[0][j - 1] in s[1..];
        } else if i > 0 {
          assert r[i] == r[1..][i - 1] == rest[1..][i - 1] == rest[i];
          assert rest[i][j] in s[1..];
        }
      }
    }
  }

  /** The filter of `getKeywords`: not a stop word and longer than 2. */
  predicate IsKeyword(w: string) {
    |w| > 2 && w !in StopWords
  }

  /** `filter(word => !stopWords.has(word) && word.length > 2)`. */
  function FilterKeywords(ws: seq<string>): seq<string> {
    if ws == [] then []
    else FilterKeywords(ws[..|ws| - 1]) + (if IsKeyword(ws[|ws| - 1]) then [ws[|ws| - 1]] else [])
  }

  /** The filter keeps exactly the pieces that are keywords. */
  lemma {:induction false} FilterKeywordsMembers(ws: seq<string>)
    ensures forall w :: w in FilterKeywords(ws) <==> w in ws && IsKeyword(w)
  {
    if ws != [] {
      var init := ws[..|ws| - 1];
      FilterKeywordsMembers(init);
      assert ws == init + [ws[|ws| - 1]];
    }
  }

  /** The chain of `getKeywords` after its guard. */
  function Tokens(t: string): seq<string> {
    FilterKeywords(SplitWs(StripDisallowed(Lower(t))))
  }

  /** `getKeywords(text)`: absent or empty text has no keywords. */
  function Keywords(text: Option<string>): (r: seq<string>)
    ensures text == None || text == Some("") ==> r == []
  {
    match text
    case None => []
    case Some(t) => if t == "" then [] else Tokens(t)
  }

  /** Every keyword is longer than two characters, is not a stop word, and
      consists of kept, non-space, non-upper-case characters. */
  lemma KeywordsShape(text: Option<string>)
    ensures forall w :: w in Keywords(text) ==>
      IsKeyword(w) && forall c :: c in w ==> IsKept(c) && !IsSpace(c) && !IsUpper(c)
  {
    if text.Some? && text.value != "" {
      var t := text.value;
      var stripped := StripDisallowed(Lower(t));
      SplitWsChars(stripped);
      StripDisallowedChars(Lower(t));
      FilterKeywordsMembers(SplitWs(stripped));
    }
  }

  /** `flatMap(p => getKeywords(p))`: the keywords of every phrase, phrase
      after phrase. */
  function FlatKeywords(phrases: seq<string>): seq<string> {
    if phrases == [] then []
    else FlatKeywords(phrases[..|phrases| - 1]) + Keywords(Some(phrases[|phrases| - 1]))
  }

  /** Flattening keeps only keywords. */
  lemma {:induction false} FlatKeywordsShape(phrases: seq<string>)
    ensures forall w :: w in FlatKeywords(phrases) ==> IsKeyword(w)
  {
    if phrases != [] {
      FlatKeywordsShape(phrases[..|phrases| - 1]);
      KeywordsShape(Some(phrases[|phrases| - 1]));
    }
  }

  lemma StripConcat(a: string, b: string)
    ensures StripDisallowed(a + b) == StripDisallowed(a) + StripDisallowed(b)
    decreases |b|
  {
    if b != [] {
      assert (a + b)[..|a + b| - 1] == a + b[..|b| - 1];
      StripConcat(a, b[..|b| - 1]);
    } else {
      assert a + b == a;
    }
  }

  lemma FilterConcat(u: seq<string>, v: seq<string>)
    ensures FilterKeywords(u + v) == FilterKeywords(u) + FilterKeywords(v)
    decreases |v|
  {
    if v != [] {
      assert (u + v)[..|u + v| - 1] == u + v[..|v| - 1];
      FilterConcat(u, v[..|v| - 1]);
    } else {
      assert u + v == u;
    }
  }

  lemma FilterHeadTail(ws: seq<string>)
    requires ws != []
    ensures FilterKeywords(ws) == FilterKeywords([ws[0]]) + FilterKeywords(ws[1..])
  {
    assert ws == [ws[0]] + ws[1..];
    FilterConcat([ws[0]], ws[1..]);
  }

  lemma TrimStartConcat(x: string, w: string)
    ensures TrimStart(x + w) == if TrimStart(x) == [] then TrimStart(w) else TrimStart(x) + w
  {
    if x != [] && IsSpace(x[0]) {
      assert (x + w)[1..] == x[1..] + w;
      TrimStartConcat(x[1..], w);
    } else if x == [] {
      assert x + w == w;
    }
  }

  /** Skipping leading white space does not change the keywords. */
  lemma SplitTrimStart(y: string)
    ensures FilterKeywords(SplitWs(TrimStart(y))) == FilterKeywords(SplitWs(y))
  {
    if y != [] && IsSpace(y[0]) {
      FilterConcat([[]], SplitWs(TrimStart(y)));
    }
  }

  lemma SplitAtSpace(s: string)
    requires s != [] && IsSpace(s[0])
    ensures SplitWs(s)[0] == [] && SplitWs(s)[1..] == SplitWs(TrimStart(s))
    ensures FilterKeywords(SplitWs(s)) == FilterKeywords(SplitWs(s)[1..])
  {
    FilterHeadTail(SplitWs(s));
  }

  /** Splitting `x` followed by a text `w` that starts with white space
      yields the pieces of `x` and then those of `w`: the first piece is the
      first piece of `x`, and apart from empty pieces the rest is the rest of
      `x` followed by the pieces of `w`. */
  lemma {:induction false} SplitJoin(x: string, w: string)
    requires w != [] && IsSpace(w[0])
    ensures SplitWs(x + w)[0] == SplitWs(x)[0]
    ensures FilterKeywords(SplitWs(x + w)[1..])
         == FilterKeywords(SplitWs(x)[1..]) + FilterKeywords(SplitWs(w))
    decreases |x|, 1
  {
    if x == [] {
      SplitJoinNil(x, w);
    } else if IsSpace(x[0]) {
      SplitJoinSpace(x, w);
    } else {
      SplitJoinWord(x, w);
    }
  }

  lemma SplitJoinNil(x: string, w: string)
    requires x == [] && w != [] && IsSpace(w[0])
    ensures SplitWs(x + w)[0] == SplitWs(x)[0]
    ensures FilterKeywords(SplitWs(x + w)[1..])
         == FilterKeywords(SplitWs(x)[1..]) + FilterKeywords(SplitWs(w))
  {
    assert x + w == w;
    assert SplitWs(w)[0] == [] && FilterKeywords(SplitWs(w)[1..]) == FilterKeywords(SplitWs(w)) by {
      SplitAtSpace(w);
    }
    assert SplitWs(x) == [[]];
  }

  lemma {:induction false} SplitJoinSpace(x: string, w: string)
    requires w != [] && IsSpace(w[0]) && x != [] && IsSpace(x[0])
    ensures SplitWs(x + w)[0] == SplitWs(x)[0]
    ensures FilterKeywords(SplitWs(x + w)[1..])
         == FilterKeywords(SplitWs(x)[1..]) + FilterKeywords(SplitWs(w))
    decreases |x|, 0
  {
    if TrimStart(x) == [] {
      SplitJoinBlank(x, w);
    } else {
      SplitJoin(TrimStart(x), w);
      SplitJoinTrimmed(x, w);
    }
  }

  /** `SplitJoin` when `x` is all white space. */
  lemma SplitJoinBlank(x: string, w: string)
    requires w != [] && IsSpace(w[0]) && x != [] && IsSpace(x[0]) && TrimStart(x) == []
    ensures SplitWs(x + w)[0] == SplitWs(x)[0]
    ensures FilterKeywords(SplitWs(x + w)[1..])
         == FilterKeywords(SplitWs(x)[1..]) + FilterKeywords(SplitWs(w))
  {
    assert SplitWs(x)[0] == [] && SplitWs(x)[1..] == [[]] by {
      SplitAtSpace(x);
    }
    assert SplitWs(x + w)[0] == [] && SplitWs(x + w)[1..] == SplitWs(TrimStart(w)) by {
      ConsConcat(x, w);
      SplitAtSpace(x + w);
      TrimStartConcat(x, w);
    }
    assert FilterKeywords(SplitWs(TrimStart(w))) == FilterKeywords(SplitWs(w)) by {
      SplitAtSpace(w);
    }
    assert FilterKeywords([[]]) == [];
  }

  /** `SplitJoin` for `x` starting with white space, from `SplitJoin` for
      `x` without it. */
  lemma SplitJoinTrimmed(x: string, w: string)
    requires w != [] && IsSpace(w[0]) && x != [] && IsSpace(x[0]) && TrimStart(x) != []
    requires SplitWs(TrimStart(x) + w)[0] == SplitWs(TrimStart(x))[0]
    requires FilterKeywords(SplitWs(TrimStart(x) + w)[1..])
          == FilterKeywords(SplitWs(TrimStart(x))[1..]) + FilterKeywords(SplitWs(w))
    ensures SplitWs(x + w)[0] == SplitWs(x)[0]
    ensures FilterKeywords(SplitWs(x + w)[1..])
         == FilterKeywords(SplitWs(x)[1..]) + FilterKeywords(SplitWs(w))
  {
    var x' := TrimStart(x);
    ConsConcat(x, w);
    SplitAtSpace(x);
    SplitAtSpace(x + w);
    TrimStartConcat(x, w);
    assert SplitWs(x + w)[1..] == SplitWs(x' + w);
    assert SplitWs(x)[1..] == SplitWs(x');
    CombineTails(SplitWs(x' + w), SplitWs(x'), FilterKeywords(SplitWs(w)));
  }

  lemma {:induction false} SplitJoinWord(x: string, w: string)
    requires w != [] && IsSpace(w[0]) && x != [] && !IsSpace(x[0])
    ensures SplitWs(x + w)[0] == SplitWs(x)[0]
    ensures FilterKeywords(SplitWs(x + w)[1..])
         == FilterKeywords(SplitWs(x)[1..]) + FilterKeywords(SplitWs(w))
    decreases |x|, 0
  {
    ConsConcat(x, w);
    SplitAtWord(x);
    SplitAtWord(x + w);
    SplitJoin(x[1..], w);
  }

  lemma ConsConcat(x: string, w: string)
    requires x != []
    ensures (x + w)[0] == x[0] && (x + w)[1..] == x[1..] + w
  {
  }

  lemma SplitAtWord(s: string)
    requires s != [] && !IsSpace(s[0])
    ensures SplitWs(s)[0] == [s[0]] + SplitWs(s[1..])[0]
    ensures SplitWs(s)[1..] == SplitWs(s[1..])[1..]
  {
  }

  /** Two splits with the same first piece whose filtered rests differ by
      `w` differ by `w` as a whole. */
  lemma CombineTails(u: seq<string>, v: seq<string>, w: seq<string>)
    requires u != [] && v != [] && u[0] == v[0]
    requires FilterKeywords(u[1..]) == FilterKeywords(v[1..]) + w
    ensures FilterKeywords(u) == FilterKeywords(v) + w
  {
    FilterHeadTail(u);
    FilterHeadTail(v);
    ConcatAssoc(FilterKeywords([v[0]]), FilterKeywords(v[1..]), w);
  }

  lemma ConcatAssoc<T>(a: seq<T>, b: seq<T>, c: seq<T>)
    ensures a + (b + c) == (a + b) + c
  {
  }

  lemma LowerJoin(a: string, b: string)
    ensures Lower(a + " " + b) == Lower(a) + " " + Lower(b)
  {
    assert a + " " + b == a + (" " + b);
    LowerConcat(a, " " + b);
    LowerConcat(" ", b);
    assert Lower(" ") == " ";
  }

  lemma StripJoin(x: string, y: string)
    ensures StripDisallowed(x + " " + y) == StripDisallowed(x) + " " + StripDisallowed(y)
  {
    assert x + " " + y == x + (" " + y);
    StripConcat(x, " " + y);
    StripConcat(" ", y);
    assert StripDisallowed(" ") == " " by {
      assert " "[..0] == [];
    }
  }

  /** Lowering and deleting characters treat `a`, a space and `b` apart. */
  lemma NormalizeJoin(a: string, b: string)
    ensures StripDisallowed(Lower(a + " " + b))
         == StripDisallowed(Lower(a)) + [' '] + StripDisallowed(Lower(b))
  {
    LowerJoin(a, b);
    StripJoin(Lower(a), Lower(b));
  }

  /** `getKeywords` of two texts joined by a space is the keywords of the
      first followed by those of the second: token order follows the text
      and repeated tokens are all kept. */
  lemma KeywordsConcat(a: string, b: string)
    ensures Keywords(Some(a + " " + b)) == Keywords(Some(a)) + Keywords(Some(b))
  {
    NormalizeJoin(a, b);
    var x, y := StripDisallowed(Lower(a)), StripDisallowed(Lower(b));
    var w := [' '] + y;
    ConcatAssoc(x, [' '], y);
    SplitJoin(x, w);
    CombineTails(SplitWs(x + w), SplitWs(x), FilterKeywords(SplitWs(w)));
    SplitAtSpace(w);
    assert TrimStart(w) == TrimStart(y) by {
      assert w[1..] == y;
    }
    SplitTrimStart(y);
    calc {
      Tokens(a + " " + b);
      FilterKeywords(SplitWs(x + w));
      FilterKeywords(SplitWs(x)) + FilterKeywords(SplitWs(w));
      { assert FilterKeywords(SplitWs(w)) == FilterKeywords(SplitWs(TrimStart(y))); }
      FilterKeywords(SplitWs(x)) + FilterKeywords(SplitWs(y));
      Tokens(a) + Tokens(b);
    }
    TokensOfEmpty();
  }

  lemma TokensOfEmpty()
    ensures Tokens("") == []
  {
    assert Lower("") == "";
    assert StripDisallowed("") == "";
    assert SplitWs("") == [""];
    assert FilterKeywords([""]) == [] by {
      assert [""][..0] == [];
    }
  }

  // ---------------------------------------------------------------------
  // The words of the text do come out

  /** A piece of text with no white space in it. */
  predicate NoSpace(w: string) {
    forall i :: 0 <= i < |w| ==> !IsSpace(w[i])
  }

  /** `split` leaves a text without white space whole. */
  lemma {:induction false} SplitWsWord(w: string)
    requires NoSpace(w)
    ensures SplitWs(w) == [w]
    decreases |w|
  {
    if w != [] {
      SplitWsWord(w[1..]);
      assert [w[0]] + w[1..] == w;
    }
  }

  /** `split` cuts a word off at the single space behind it: the word
      comes out as the first piece, followed by the pieces of the rest. */
  lemma {:induction false} SplitWsLeadingWord(w: string, rest: string)
    requires NoSpace(w)
    requires rest == [] || !IsSpace(rest[0])
    ensures SplitWs(w + [' '] + rest) == [w] + SplitWs(rest)
    decreases |w|
  {
    if w == [] {
      assert w + [' '] + rest == [' '] + rest;
      assert TrimStart([' '] + rest) == rest by {
        assert ([' '] + rest)[1..] == rest;
      }
    } else {
      var t := w + [' '] + rest;
      assert t[0] == w[0] && t[1..] == w[1..] + [' '] + rest;
      SplitWsLeadingWord(w[1..], rest);
      assert [w[0]] + w[1..] == w;
    }
  }

  /** `replace` leaves a text of kept characters unchanged. */
  lemma {:induction false} StripKeepsKept(s: string)
    requires forall i :: 0 <= i < |s| ==> IsKept(s[i])
    ensures StripDisallowed(s) == s
  {
    if s != [] {
      StripKeepsKept(s[..|s| - 1]);
      assert s[..|s| - 1] + [s[|s| - 1]] == s;
    }
  }

  /** A word `getKeywords` returns unchanged. */
  predicate IsPlainKeyword(w: string) {
    IsKeyword(w) && forall i :: 0 <= i < |w| ==> IsKept(w[i]) && !IsSpace(w[i]) && !IsUpper(w[i])
  }

  /** A keyword made of kept, non-space, lower-case characters is its own
      and only keyword: `getKeywords` returns every such word. */
  lemma KeywordsOfWord(w: string)
    requires IsPlainKeyword(w)
    ensures Keywords(Some(w)) == [w]
  {
    assert Lower(w) == w by {
      forall i | 0 <= i < |w| ensures Lower(w)[i] == w[i] {
        assert !IsUpper(w[i]);
      }
    }
    assert StripDisallowed(w) == w by {
      StripKeepsKept(w);
    }
    assert SplitWs(w) == [w] by {
      SplitWsWord(w);
    }
    assert FilterKeywords([w]) == [w] by {
      assert [w][..0] == [];
    }
    assert Tokens(w) == [w];
  }

  /** The words joined by single spaces. */
  function JoinWords(ws: seq<string>): string {
    if ws == [] then ""
    else if |ws| == 1 then ws[0]
    else JoinWords(ws[..|ws| - 1]) + " " + ws[|ws| - 1]
  }

  /** `getKeywords` of plain keywords joined by single spaces gives back
      exactly those keywords, in order and with repeats. */
  lemma {:induction false} KeywordsOfJoin(ws: seq<string>)
    requires forall i :: 0 <= i < |ws| ==> IsPlainKeyword(ws[i])
    ensures Keywords(Some(JoinWords(ws))) == ws
  {
    if |ws| == 1 {
      KeywordsOfWord(ws[0]);
    } else if |ws| > 1 {
      var n := |ws| - 1;
      KeywordsOfJoin(ws[..n]);
      KeywordsOfWord(ws[n]);
      KeywordsConcat(JoinWords(ws[..n]), ws[n]);
      assert ws[..n] + [ws[n]] == ws;
    }
  }
}
