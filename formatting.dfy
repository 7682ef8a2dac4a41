/** The text helpers of the bot's replies: `vnd`, the Vietnamese-dong amount
    with '.' between thousands, and `short_addr`, an address with its
    whitespace collapsed and cut to a length. */
module Formatting {
  import opened Wrappers

  // ================================================================== vnd

  predicate IsDigit(c: char) {
    '0' <= c <= '9'
  }

  function DigitChar(d: nat): (c: char)
    requires d < 10
    ensures IsDigit(c)
  {
    ('0' as int + d) as char
  }

  /** The decimal numeral of `n`, most significant digit first. */
  function Digits(n: nat): (s: string)
    ensures |s| >= 1 && forall i :: 0 <= i < |s| ==> IsDigit(s[i])
    decreases n
  {
    if n < 10 then [DigitChar(n)] else Digits(n / 10) + [DigitChar(n % 10)]
  }

  /** The number a numeral denotes. */
  function DigitsValue(s: string): int
    decreases |s|
  {
    if s == [] then 0 else DigitsValue(s[..|s| - 1]) * 10 + (s[|s| - 1] as int - '0' as int)
  }

  /** Python's `,` format option, with '.' as the separator: a separator
      before every group of three digits counted from the right. */
  function Group(ds: string): string
    decreases |ds|
  {
    if |ds| <= 3 then ds else Group(ds[..|ds| - 3]) + "." + ds[|ds| - 3..]
  }

  /** `vnd(n)` for an integer: the sign, the digits of the magnitude with a
      '.' before every group of three from the right, then the dong sign. */
  function Vnd(n: int): (r: string)
    ensures |r| >= 2 && r[|r| - 1] == '\U{111}'
    ensures r[0] == '-' <==> n < 0
  {
    var m: nat := if n < 0 then -n else n;
    GroupShape(Digits(m));
    (if n < 0 then "-" else "") + Group(Digits(m)) + "\U{111}"
  }

  /** A grouped numeral: digits, with a '.' exactly at the positions that sit
      a multiple of four from the end, and neither end a '.'. */
  predicate Grouped(g: string) {
    && |g| >= 1
    && IsDigit(g[0])
    && forall i :: 0 <= i < |g| ==> (g[i] == '.' <==> (|g| - i) % 4 == 0) && (g[i] != '.' ==> IsDigit(g[i]))
  }

  /** The digits of a grouped numeral, separators dropped. */
  function Ungroup(g: string): (ds: string)
    ensures forall i :: 0 <= i < |ds| ==> ds[i] != '.'
    decreases |g|
  {
    if g == [] then [] else if g[|g| - 1] == '.' then Ungroup(g[..|g| - 1]) else Ungroup(g[..|g| - 1]) + [g[|g| - 1]]
  }

  /** Read an amount back from its text: the inverse of Vnd. */
  function ParseVnd(s: string): Option<int> {
    if |s| < 2 || s[|s| - 1] != '\U{111}' then None
    else
      var body := s[..|s| - 1];
      var neg := body[0] == '-';
      var g := if neg then body[1..] else body;
      if !Grouped(g) then None
      else
        var v := DigitsValue(Ungroup(g));
        Some(if neg then -v else v)
  }

  lemma {:induction false} UngroupAppend(a: string, b: string)
    ensures Ungroup(a + b) == Ungroup(a) + Ungroup(b)
    decreases |b|
  {
    if b == [] {
      assert a + b == a;
    } else {
      assert (a + b)[..|a + b| - 1] == a + b[..|b| - 1];
      UngroupAppend(a, b[..|b| - 1]);
    }
  }

  /** Grouping puts the separators exactly where Grouped says, and dropping
      them gives back the digits. */
  lemma {:induction false} GroupShape(ds: string)
    requires |ds| >= 1 && forall i :: 0 <= i < |ds| ==> IsDigit(ds[i])
    ensures Grouped(Group(ds))
    ensures Ungroup(Group(ds)) == ds
    decreases |ds|
  {
    if |ds| <= 3 {
      GroupShort(ds);
    } else {
      var pre, post := ds[..|ds| - 3], ds[|ds| - 3..];
      GroupShape(pre);
      GroupLong(pre, post);
      assert pre + post == ds;
    }
  }

  /** Three digits or fewer are left as they are. */
  lemma GroupShort(ds: string)
    requires 1 <= |ds| <= 3 && forall i :: 0 <= i < |ds| ==> IsDigit(ds[i])
    ensures Grouped(Group(ds)) && Ungroup(Group(ds)) == ds
  {
    assert Group(ds) == ds;
    forall i | 0 <= i < |ds| ensures ds[i] != '.' && (|ds| - i) % 4 != 0 {
      assert 1 <= |ds| - i <= 3;
    }
    UngroupNoDots(ds);
  }

  /** More than three digits: the last three follow a separator. */
  lemma GroupLong(pre: string, post: string)
    requires |pre| >= 1 && |post| == 3 && forall i :: 0 <= i < 3 ==> IsDigit(post[i])
    requires Grouped(Group(pre)) && Ungroup(Group(pre)) == pre
    ensures Grouped(Group(pre + post)) && Ungroup(Group(pre + post)) == pre + post
  {
    var ds := pre + post;
    assert ds[..|ds| - 3] == pre && ds[|ds| - 3..] == post;
    GroupUnfold(ds);
    GroupLongShape(Group(pre), post);
    GroupLongDigits(Group(pre), pre, post);
  }

  lemma GroupLongShape(gp: string, post: string)
    requires Grouped(gp) && |post| == 3 && forall i :: 0 <= i < 3 ==> IsDigit(post[i])
    ensures Grouped(gp + "." + post)
  {
    GroupedSnoc(gp, post);
  }

  lemma GroupLongDigits(gp: string, pre: string, post: string)
    requires Ungroup(gp) == pre && forall i :: 0 <= i < |post| ==> IsDigit(post[i])
    ensures Ungroup(gp + "." + post) == pre + post
  {
    UngroupSnoc(gp, post);
  }

  lemma GroupUnfold(ds: string)
    requires |ds| > 3
    ensures Group(ds) == Group(ds[..|ds| - 3]) + "." + ds[|ds| - 3..]
  {
  }

  /** One more group of three digits after a separator keeps the shape. */
  lemma GroupedSnoc(gp: string, post: string)
    requires Grouped(gp) && |post| == 3 && forall i :: 0 <= i < 3 ==> IsDigit(post[i])
    ensures Grouped(gp + "." + post)
  {
    var g := gp + "." + post;
    forall i | 0 <= i < |g|
      ensures (g[i] == '.' <==> (|g| - i) % 4 == 0) && (g[i] != '.' ==> IsDigit(g[i]))
    {
      if i < |gp| {
        assert g[i] == gp[i];
        assert |g| - i == (|gp| - i) + 4;
      } else if i > |gp| {
        assert g[i] == post[i - |gp| - 1];
      }
    }
  }

  lemma UngroupSnoc(gp: string, post: string)
    requires forall i :: 0 <= i < |post| ==> post[i] != '.'
    ensures Ungroup(gp + "." + post) == Ungroup(gp) + post
  {
    UngroupAppend(gp + ".", post);
    UngroupAppend(gp, ".");
    assert Ungroup(".") == [] by {
      assert "."[..0] == [];
    }
    UngroupNoDots(post);
  }

  lemma {:induction false} UngroupNoDots(ds: string)
    requires forall i :: 0 <= i < |ds| ==> ds[i] != '.'
    ensures Ungroup(ds) == ds
    decreases |ds|
  {
    if ds != [] {
      UngroupNoDots(ds[..|ds| - 1]);
      assert ds[..|ds| - 1] + [ds[|ds| - 1]] == ds;
    }
  }

  /** The numeral denotes the number. */
  lemma {:induction false} DigitsValueOfDigits(n: nat)
    ensures DigitsValue(Digits(n)) == n
    decreases n
  {
    if n >= 10 {
      var s := Digits(n);
      assert s[..|s| - 1] == Digits(n / 10);
      DigitsValueOfDigits(n / 10);
    }
  }

  /** The numeral has no leading zero, except for zero itself. */
  lemma {:induction false} DigitsCanonical(n: nat)
    ensures Digits(n)[0] == '0' <==> n == 0
    decreases n
  {
    if n >= 10 {
      DigitsCanonical(n / 10);
    }
  }

  /** For a non-negative amount, `vnd(n)` is the decimal digits of `n`, with
      '.' every three digits from the right, followed by 'đ'. */
  lemma {:induction false} VndShape(n: nat)
    ensures var s := Vnd(n);
      && |s| >= 2 && s[|s| - 1] == '\U{111}'
      && Grouped(s[..|s| - 1])
      && Ungroup(s[..|s| - 1]) == Digits(n)
  {
    var g := Group(Digits(n));
    assert Vnd(n) == g + "\U{111}";
    assert Vnd(n)[..|Vnd(n)| - 1] == g;
    GroupShape(Digits(n));
  }

  /** Round trip: the amount is read back from its text, for every integer,
      negative ones included. */
  lemma {:induction false} VndRoundTrip(n: int)
    ensures ParseVnd(Vnd(n)) == Some(n)
  {
    var m: nat := if n < 0 then -n else n;
    var g := Group(Digits(m));
    GroupShape(Digits(m));
    DigitsValueOfDigits(m);
    ParseGrouped(g, n < 0);
    assert Vnd(n) == (if n < 0 then "-" else "") + g + "\U{111}";
  }

  /** Reading a grouped numeral with or without a minus sign. */
  lemma ParseGrouped(g: string, neg: bool)
    requires Grouped(g)
    ensures ParseVnd((if neg then "-" else "") + g + "\U{111}")
         == Some(if neg then -DigitsValue(Ungroup(g)) else DigitsValue(Ungroup(g)))
  {
    var s := (if neg then "-" else "") + g + "\U{111}";
    var body := s[..|s| - 1];
    assert body == (if neg then "-" else "") + g;
    if neg {
      assert body[0] == '-' && body[1..] == g;
    } else {
      assert body == g;
      assert IsDigit(g[0]) && body[0] != '-';
    }
  }

  // ============================================================ short_addr

  /** The characters Python's `str.split()` treats as whitespace. */
  predicate IsSpace(c: char) {
    || c == ' ' || '\t' <= c <= '\r' || '\U{1c}' <= c <= '\U{1f}'
    || c == '\U{85}' || c == '\U{a0}' || c == '\U{1680}' || '\U{2000}' <= c <= '\U{200a}'
    || c == '\U{2028}' || c == '\U{2029}' || c == '\U{202f}' || c == '\U{205f}' || c == '\U{3000}'
  }

  /** A word of `split()`: non-empty, no whitespace. */
  predicate IsWord(w: string) {
    w != [] && forall i :: 0 <= i < |w| ==> !IsSpace(w[i])
  }

  /** The length of the run of non-whitespace that starts `s`. */
  function WordLen(s: string): (n: nat)
    ensures n <= |s|
    ensures forall i :: 0 <= i < n ==> !IsSpace(s[i])
    ensures n < |s| ==> IsSpace(s[n])
    decreases |s|
  {
    if s == [] || IsSpace(s[0]) then 0 else 1 + WordLen(s[1..])
  }

  /** `s.split()`: the maximal runs of non-whitespace, in order. */
  function Words(s: string): (ws: seq<string>)
    ensures forall i :: 0 <= i < |ws| ==> IsWord(ws[i])
    decreases |s|
  {
    if s == [] then []
    else if IsSpace(s[0]) then Words(s[1..])
    else
      var n := WordLen(s);
      [s[..n]] + Words(s[n..])
  }

  /** The words joined with one space between each two. */
  function Join(ws: seq<string>): string
    decreases |ws|
  {
    if ws == [] then "" else if |ws| == 1 then ws[0] else ws[0] + " " + Join(ws[1..])
  }

  /** The text with every run of whitespace made one space and the
      whitespace at both ends dropped: its characters other than whitespace
      are kept, in order, and what whitespace is left is single spaces
      between them. */
  function Collapse(s: string): (r: string)
    ensures NonSpace(r) == NonSpace(s)
    ensures Normalized(r)
  {
    JoinNormalized(Words(s));
    JoinKeepsText(Words(s));
    WordsConcat(s);
    Join(Words(s))
  }

  /** `s[:k]` with Python's reading of a negative bound, counted from the end. */
  function PyPrefix(s: string, k: int): (r: string)
    ensures |r| <= |s|
    ensures r == s[..|r|]
  {
    if k >= 0 then (if k <= |s| then s[..k] else s)
    else if |s| + k >= 0 then s[..|s| + k] else []
  }

  /** short_addr: "" for an empty text, else the collapsed text, cut to
      `maxLen - 1` characters and an ellipsis when it is longer than
      `maxLen`. */
  function ShortAddr(text: string, maxLen: int): (r: string)
    ensures maxLen >= 1 ==> |r| <= maxLen
    ensures |Collapse(text)| <= maxLen ==> r == Collapse(text)
  {
    if text == "" then ""
    else
      var s := Collapse(text);
      if |s| <= maxLen then s else PyPrefix(s, maxLen - 1) + "\U{2026}"
  }

  /** The characters of the text that are not whitespace, in order. */
  function NonSpace(s: string): string
    decreases |s|
  {
    if s == [] then [] else (if IsSpace(s[0]) then [] else [s[0]]) + NonSpace(s[1..])
  }

  /** The words laid end to end. */
  function Concat(ws: seq<string>): string
    decreases |ws|
  {
    if ws == [] then [] else ws[0] + Concat(ws[1..])
  }

  /** A collapsed string has single spaces between its words and no other
      whitespace. */
  predicate Normalized(t: string) {
    forall i :: 0 <= i < |t| && IsSpace(t[i]) ==> t[i] == ' ' && 0 < i < |t| - 1 && !IsSpace(t[i + 1])
  }

  lemma {:induction false} WordLenOfWord(w: string, rest: string)
    requires IsWord(w) && (rest == [] || IsSpace(rest[0]))
    ensures WordLen(w + rest) == |w|
    decreases |w|
  {
    if |w| > 1 {
      assert (w + rest)[1..] == w[1..] + rest;
      WordLenOfWord(w[1..], rest);
    } else {
      assert (w + rest)[1..] == rest;
    }
  }

  lemma {:induction false} SkipSpace(rest: string)
    ensures Words(" " + rest) == Words(rest)
  {
    assert (" " + rest)[1..] == rest;
  }

  /** Round trip: splitting a join of words gives back those words. */
  lemma {:induction false} WordsOfJoin(ws: seq<string>)
    requires forall i :: 0 <= i < |ws| ==> IsWord(ws[i])
    ensures Words(Join(ws)) == ws
    decreases |ws|
  {
    if ws == [] {
    } else if |ws| == 1 {
      var w := ws[0];
      WordLenOfWord(w, []);
      assert w + [] == w;
      assert w[|w|..] == [];
    } else {
      var w, j := ws[0], Join(ws[1..]);
      var s := w + " " + j;
      assert s == w + (" " + j);
      WordLenOfWord(w, " " + j);
      assert s[..|w|] == w;
      assert s[|w|..] == " " + j;
      SkipSpace(j);
      WordsOfJoin(ws[1..]);
    }
  }

  /** A join of words is normalized, and empty only when there are no words. */
  lemma {:induction false} JoinNormalized(ws: seq<string>)
    requires forall i :: 0 <= i < |ws| ==> IsWord(ws[i])
    ensures Normalized(Join(ws))
    ensures Join(ws) == "" <==> ws == []
    ensures ws != [] ==> !IsSpace(Join(ws)[0]) && !IsSpace(Join(ws)[|Join(ws)| - 1])
    decreases |ws|
  {
    if |ws| > 1 {
      var w, j := ws[0], Join(ws[1..]);
      JoinNormalized(ws[1..]);
      var s := w + " " + j;
      forall i | 0 <= i < |s| && IsSpace(s[i])
        ensures s[i] == ' ' && 0 < i < |s| - 1 && !IsSpace(s[i + 1])
      {
        if i > |w| {
          assert s[i] == j[i - |w| - 1];
          if i + 1 < |s| {
            assert s[i + 1] == j[i - |w|];
          }
        } else if i == |w| {
          assert s[i + 1] == j[0];
        }
      }
      assert s[|s| - 1] == j[|j| - 1];
    }
  }

  lemma {:induction false} NonSpaceAppend(a: string, b: string)
    ensures NonSpace(a + b) == NonSpace(a) + NonSpace(b)
    decreases |a|
  {
    if a != [] {
      assert (a + b)[0] == a[0] && (a + b)[1..] == a[1..] + b;
      NonSpaceAppend(a[1..], b);
    } else {
      assert a + b == b;
    }
  }

  lemma {:induction false} NonSpaceOfWord(w: string)
    requires forall i :: 0 <= i < |w| ==> !IsSpace(w[i])
    ensures NonSpace(w) == w
    decreases |w|
  {
    if w != [] {
      NonSpaceOfWord(w[1..]);
    }
  }

  /** NonSpace is empty exactly for a blank text. */
  lemma {:induction false} NonSpaceEmpty(s: string)
    ensures NonSpace(s) == [] <==> forall i :: 0 <= i < |s| ==> IsSpace(s[i])
    decreases |s|
  {
    if s != [] {
      NonSpaceEmpty(s[1..]);
      if forall i :: 0 <= i < |s[1..]| ==> IsSpace(s[1..][i]) {
        if IsSpace(s[0]) {
          forall i | 0 <= i < |s| ensures IsSpace(s[i]) {
            if i > 0 {
              assert s[i] == s[1..][i - 1];
            }
          }
        }
      }
    }
  }

  /** The words of a text, laid end to end, are its characters other than
      whitespace: split loses nothing but whitespace. */
  lemma {:induction false} WordsConcat(s: string)
    ensures Concat(Words(s)) == NonSpace(s)
    decreases |s|
  {
    if s != [] {
      if IsSpace(s[0]) {
        WordsConcat(s[1..]);
      } else {
        var n := WordLen(s);
        assert s == s[..n] + s[n..];
        NonSpaceAppend(s[..n], s[n..]);
        NonSpaceOfWord(s[..n]);
        WordsConcat(s[n..]);
        var ws := Words(s);
        assert ws[0] == s[..n] && ws[1..] == Words(s[n..]);
      }
    }
  }

  /** Joining words with spaces adds nothing but whitespace. */
  lemma {:induction false} JoinKeepsText(ws: seq<string>)
    requires forall i :: 0 <= i < |ws| ==> IsWord(ws[i])
    ensures NonSpace(Join(ws)) == Concat(ws)
    decreases |ws|
  {
    if |ws| == 1 {
      NonSpaceOfWord(ws[0]);
      assert Concat(ws) == ws[0] + Concat([]);
      assert ws[0] + [] == ws[0];
    } else if |ws| > 1 {
      var w, j := ws[0], Join(ws[1..]);
      JoinKeepsText(ws[1..]);
      NonSpaceAppend(w + " ", j);
      NonSpaceAppend(w, " ");
      NonSpaceOfWord(w);
      assert NonSpace(" ") == [] by {
        assert " "[1..] == [];
      }
    }
  }

  /** split() finds no word exactly in a blank text. */
  lemma WordsEmptyIffBlank(s: string)
    ensures Words(s) == [] <==> forall i :: 0 <= i < |s| ==> IsSpace(s[i])
  {
    WordsConcat(s);
    NonSpaceEmpty(s);
    var ws := Words(s);
    if ws != [] {
      assert Concat(ws) == ws[0] + Concat(ws[1..]);
      assert |ws[0]| > 0;
    }
  }

  /** A run of non-whitespace ends where the first text ends, when that text
      already stops at whitespace or what follows begins with whitespace. */
  lemma {:induction false} WordLenPrefix(x: string, z: string)
    requires WordLen(x) < |x| || z == [] || IsSpace(z[0])
    ensures WordLen(x + z) == WordLen(x)
    decreases |x|
  {
    if x == [] {
      assert x + z == z;
    } else {
      assert (x + z)[0] == x[0] && (x + z)[1..] == x[1..] + z;
      if !IsSpace(x[0]) {
        WordLenPrefix(x[1..], z);
      }
    }
  }

  /** Splitting a text that is followed by whitespace: the words of the
      two parts, one after the other. */
  lemma {:induction false} WordsBeforeSpace(x: string, z: string)
    requires z != [] && IsSpace(z[0])
    ensures Words(x + z) == Words(x) + Words(z)
    decreases |x|
  {
    if x == [] {
      assert x + z == z;
    } else if IsSpace(x[0]) {
      assert (x + z)[0] == x[0] && (x + z)[1..] == x[1..] + z;
      WordsBeforeSpace(x[1..], z);
    } else {
      WordsBeforeSpace(x[WordLen(x)..], z);
      WordsBeforeSpaceAtWord(x, z);
    }
  }

  /** The case of WordsBeforeSpace where the text starts with a word, given
      the split of what follows that word. */
  lemma {:induction false} WordsBeforeSpaceAtWord(x: string, z: string)
    requires z != [] && IsSpace(z[0]) && x != [] && !IsSpace(x[0])
    requires Words(x[WordLen(x)..] + z) == Words(x[WordLen(x)..]) + Words(z)
    ensures Words(x + z) == Words(x) + Words(z)
  {
    var s, n := x + z, WordLen(x);
    WordLenPrefix(x, z);
    assert s[0] == x[0];
    assert s[..n] == x[..n];
    assert s[n..] == x[n..] + z;
  }

  /** split() breaks at every whitespace character: the words on either side
      of one are never joined, and the character itself is dropped. */
  lemma WordsAtSpace(x: string, c: char, y: string)
    requires IsSpace(c)
    ensures Words(x + [c] + y) == Words(x) + Words(y)
  {
    var z := [c] + y;
    assert x + [c] + y == x + z;
    assert z[0] == c && z[1..] == y;
    WordsBeforeSpace(x, z);
  }

  /** Whitespace in front of a text adds no word. */
  lemma {:induction false} LeadingSpaceAddsNoWord(sp: string, y: string)
    requires forall i :: 0 <= i < |sp| ==> IsSpace(sp[i])
    ensures Words(sp + y) == Words(y)
    decreases |sp|
  {
    if sp != [] {
      assert (sp + y)[0] == sp[0] && (sp + y)[1..] == sp[1..] + y;
      LeadingSpaceAddsNoWord(sp[1..], y);
    } else {
      assert sp + y == y;
    }
  }

  /** Between two words, any run of whitespace, a double space, a tab or a
      line break, collapses to exactly one space. */
  lemma CollapseSeparatesWords(a: string, sp: string, b: string)
    requires IsWord(a) && IsWord(b)
    requires sp != [] && forall i :: 0 <= i < |sp| ==> IsSpace(sp[i])
    ensures Collapse(a + sp + b) == a + " " + b
  {
    assert a + sp + b == a + [sp[0]] + (sp[1..] + b);
    WordsAtSpace(a, sp[0], sp[1..] + b);
    LeadingSpaceAddsNoWord(sp[1..], b);
    WordsOfJoin([a]);
    WordsOfJoin([b]);
    assert Words(a + sp + b) == [a, b];
    assert Join([a, b]) == a + " " + Join([b]);
  }

  /** Collapsing keeps the words of the text, in order, and nothing else:
      the collapsed text splits into exactly the same words, has single
      spaces between them and no whitespace at either end. */
  lemma CollapseKeepsWords(s: string)
    ensures Words(Collapse(s)) == Words(s)
    ensures Normalized(Collapse(s))
    ensures Collapse(s) == "" <==> Words(s) == []
  {
    WordsOfJoin(Words(s));
    JoinNormalized(Words(s));
  }

  /** Collapsing twice is collapsing once. */
  lemma CollapseIdempotent(s: string)
    ensures Collapse(Collapse(s)) == Collapse(s)
  {
    WordsOfJoin(Words(s));
  }

  /** short_addr for a positive limit: "" for an empty or blank text; the
      collapsed text when it fits; otherwise its first max_len - 1
      characters and an ellipsis, exactly max_len characters in all. */
  lemma ShortAddrFits(text: string, maxLen: int)
    requires maxLen >= 1
    ensures var r := ShortAddr(text, maxLen);
      && |r| <= maxLen
      && (r == "" <==> Words(text) == [])
      && (r == "" <==> forall i :: 0 <= i < |text| ==> IsSpace(text[i]))
      && (|Collapse(text)| <= maxLen ==> r == Collapse(text))
      && (|Collapse(text)| > maxLen ==>
            |r| == maxLen && r[..maxLen - 1] == Collapse(text)[..maxLen - 1] && r[maxLen - 1] == '\U{2026}')
  {
    CollapseKeepsWords(text);
    WordsEmptyIffBlank(text);
    if text == "" {
      assert Words(text) == [];
    }
  }

  /** With a limit of zero or less the cut counts from the end of the text,
      so a non-blank address comes back longer than the limit. */
  lemma ShortAddrNonPositiveLimit(text: string, maxLen: int)
    requires maxLen <= 0 && Words(text) != []
    ensures |ShortAddr(text, maxLen)| > maxLen
    ensures ShortAddr(text, 0) == Collapse(text)[..|Collapse(text)| - 1] + "\U{2026}"
  {
    CollapseKeepsWords(text);
    assert text != "";
  }
}
