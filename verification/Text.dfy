/** The string functions of Go's standard library that the text transforms rely on, and the laws they obey. */
module Text {

  /** unicode.IsSpace */
  predicate IsSpace(c: char) {
    || c == ' ' || c == '\t' || c == '\n' || c == '\r' || c == '\U{000B}' || c == '\U{000C}'
    || c == '\U{0085}' || c == '\U{00A0}' || c == '\U{1680}' || '\U{2000}' <= c <= '\U{200A}'
    || c == '\U{2028}' || c == '\U{2029}' || c == '\U{202F}' || c == '\U{205F}' || c == '\U{3000}'
  }

  predicate NoSpace(s: string) {
    forall i :: 0 <= i < |s| ==> !IsSpace(s[i])
  }

  predicate IsWord(s: string) {
    s != "" && NoSpace(s)
  }

  /** strings.Split for a one-character separator. */
  function Split(s: string, sep: char): (r: seq<string>)
    ensures r != []
    ensures forall i :: 0 <= i < |r| ==> sep !in r[i]
  {
    if s == "" then [""]
    else if s[0] == sep then [""] + Split(s[1..], sep)
    else var rest := Split(s[1..], sep); [[s[0]] + rest[0]] + rest[1..]
  }

  /** strings.Join */
  function Join(parts: seq<string>, sep: string): string {
    if parts == [] then ""
    else if |parts| == 1 then parts[0]
    else parts[0] + sep + Join(parts[1..], sep)
  }

  lemma {:induction false} JoinSplit(s: string, sep: char)
    ensures Join(Split(s, sep), [sep]) == s
  {
    if s != "" {
      JoinSplit(s[1..], sep);
      assert s == [s[0]] + s[1..];
      var rest := Split(s[1..], sep);
      if s[0] != sep {
        assert Split(s, sep)[1..] == rest[1..];
      }
    }
  }

  lemma {:induction false} SplitOfPiece(p: string, sep: char)
    requires sep !in p
    ensures Split(p, sep) == [p]
  {
    if p != "" {
      assert p[0] in p && forall c :: c in p[1..] ==> c in p;
      SplitOfPiece(p[1..], sep);
      assert p == [p[0]] + p[1..];
    }
  }

  lemma {:induction false} SplitAtSeparator(p: string, s: string, sep: char)
    requires sep !in p
    ensures Split(p + [sep] + s, sep) == [p] + Split(s, sep)
  {
    var t := p + [sep] + s;
    if p == "" {
      assert t[1..] == s;
    } else {
      assert p[0] in p && forall c :: c in p[1..] ==> c in p;
      SplitAtSeparator(p[1..], s, sep);
      assert t[1..] == p[1..] + [sep] + s;
      assert p == [p[0]] + p[1..];
    }
  }

  lemma {:induction false} SplitJoin(parts: seq<string>, sep: char)
    requires parts != [] && forall i :: 0 <= i < |parts| ==> sep !in parts[i]
    ensures Split(Join(parts, [sep]), sep) == parts
  {
    if |parts| == 1 {
      SplitOfPiece(parts[0], sep);
    } else {
      var rest := parts[1..];
      assert forall i :: 0 <= i < |rest| ==> rest[i] == parts[i + 1];
      SplitJoin(rest, sep);
      SplitAtSeparator(parts[0], Join(rest, [sep]), sep);
      assert parts == [parts[0]] + rest;
    }
  }

  /** The length of the first word of a string that does not start with a space. */
  function WordEnd(s: string): (n: nat)
    ensures n <= |s| && NoSpace(s[..n])
    ensures s != "" && !IsSpace(s[0]) ==> n > 0
  {
    if s == "" || IsSpace(s[0]) then 0
    else
      var n := 1 + WordEnd(s[1..]);
      assert s[..n][1..] == s[1..][..n - 1];
      n
  }

  /** strings.Fields */
  function Fields(s: string): (r: seq<string>)
    ensures forall i :: 0 <= i < |r| ==> IsWord(r[i])
    decreases |s|
  {
    if s == "" then []
    else if IsSpace(s[0]) then Fields(s[1..])
    else [s[..WordEnd(s)]] + Fields(s[WordEnd(s)..])
  }

  lemma {:induction false} WordEndOfWord(w: string, rest: string)
    requires NoSpace(w) && (rest == "" || IsSpace(rest[0]))
    ensures WordEnd(w + rest) == |w|
  {
    if w == "" {
      assert w + rest == rest;
    } else {
      WordEndOfWord(w[1..], rest);
      assert (w + rest)[1..] == w[1..] + rest;
    }
  }

  lemma {:induction false} FieldsJoin(words: seq<string>, sep: char)
    requires IsSpace(sep) && forall i :: 0 <= i < |words| ==> IsWord(words[i])
    ensures Fields(Join(words, [sep])) == words
  {
    if words != [] {
      var w, s := words[0], Join(words, [sep]);
      var rest := s[|w|..];
      assert s == w + rest;
      WordEndOfWord(w, rest);
      assert s[..|w|] == w;
      if |words| > 1 {
        FieldsJoin(words[1..], sep);
        assert rest == [sep] + Join(words[1..], [sep]);
        assert rest[1..] == Join(words[1..], [sep]);
      }
      assert Fields(rest) == words[1..];
    }
  }

  lemma {:induction false} JoinOfWordsHas(words: seq<string>, sep: char, c: char)
    requires c != sep && IsSpace(c) && forall i :: 0 <= i < |words| ==> IsWord(words[i])
    ensures c !in Join(words, [sep])
  {
    if words != [] {
      JoinOfWordsHas(words[1..], sep, c);
    }
  }

  function TrimLeft(s: string): (r: string)
    ensures r != "" ==> !IsSpace(r[0])
  {
    if s != "" && IsSpace(s[0]) then TrimLeft(s[1..]) else s
  }

  function TrimRight(s: string): (r: string)
    ensures r <= s && (r != "" ==> !IsSpace(r[|r| - 1]))
  {
    if s != "" && IsSpace(s[|s| - 1]) then TrimRight(s[..|s| - 1]) else s
  }

  /** strings.TrimSpace */
  function TrimSpace(s: string): (r: string)
    ensures r != "" ==> !IsSpace(r[0]) && !IsSpace(r[|r| - 1])
  {
    TrimRight(TrimLeft(s))
  }

  /** The lines of a file that ends with a newline. */
  lemma {:induction false} SplitOfFile(out: seq<string>)
    requires out != [] && forall i :: 0 <= i < |out| ==> '\n' !in out[i]
    ensures Split(Join(out, "\n") + "\n", '\n') == out + [""]
  {
    if |out| == 1 {
      SplitAtSeparator(out[0], "", '\n');
      assert out[0] + "\n" + "" == Join(out, "\n") + "\n";
    } else {
      SplitOfFile(out[1..]);
      SplitAtSeparator(out[0], Join(out[1..], "\n") + "\n", '\n');
      assert Join(out, "\n") + "\n" == out[0] + "\n" + (Join(out[1..], "\n") + "\n");
    }
  }

  /** strings.Contains */
  predicate Contains(s: string, part: string) {
    part <= s || (s != "" && Contains(s[1..], part))
  }

  /** strings.ReplaceAll: the occurrences are found from the left. */
  function ReplaceAll(s: string, part: string, other: string): string
    requires part != ""
  {
    if |s| < |part| then s
    else if s[..|part|] == part then other + ReplaceAll(s[|part|..], part, other)
    else [s[0]] + ReplaceAll(s[1..], part, other)
  }

  lemma {:induction false} ReplaceNone(s: string, part: string, other: string)
    requires part != "" && !Contains(s, part)
    ensures ReplaceAll(s, part, other) == s
  {
    if |s| >= |part| {
      ReplaceNone(s[1..], part, other);
      assert s == [s[0]] + s[1..];
    }
  }

  lemma AppendAssociates<T>(a: seq<T>, x: T, b: seq<T>)
    ensures (a + [x]) + b == a + ([x] + b)
  {
  }
}
