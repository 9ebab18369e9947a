/** The Signed-By field of a deb822 source: Deb822PPA.formatKey. */
module SigningKey {
  import opened Quantities
  import opened Text

  function FormatLine(l: string): string {
    if l == "" then " ." else " " + l
  }

  function FormatLines(ls: seq<string>): (r: seq<string>)
    ensures |r| == |ls| && forall i :: 0 <= i < |ls| ==> r[i] == FormatLine(ls[i])
  {
    seq(|ls|, i requires 0 <= i < |ls| => FormatLine(ls[i]))
  }

  function Formatted(rawKey: string): Option<string> {
    var key := TrimSpace(rawKey);
    if key == "" then None else Some(Join(FormatLines(Split(key, '\n')), "\n"))
  }

  /** None stands for the error on an empty key. */
  method FormatKey(rawKey: string) returns (r: Option<string>)
    ensures r == Formatted(rawKey)
  {
    var key := TrimSpace(rawKey);
    if |key| == 0 {
      return None;
    }
    var input := Split(key, '\n');
    var lines := [];
    for i := 0 to |input|
      invariant lines == FormatLines(input)[..i]
    {
      if input[i] == "" {
        lines := lines + [" ."];
      } else {
        lines := lines + [" " + input[i]];
      }
    }
    assert lines == FormatLines(input);
    r := Some(Join(lines, "\n"));
  }

  /** Reading a multiline field value back: section 5.1 of Debian Policy. */
  function DecodeLine(l: string): string {
    var text := if " " <= l then l[1..] else l;
    if text == "." then "" else text
  }

  function DecodeLines(ls: seq<string>): (r: seq<string>)
    ensures |r| == |ls| && forall i :: 0 <= i < |ls| ==> r[i] == DecodeLine(ls[i])
  {
    seq(|ls|, i requires 0 <= i < |ls| => DecodeLine(ls[i]))
  }

  function Decode(field: string): string {
    Join(DecodeLines(Split(field, '\n')), "\n")
  }

  /** A line that continues a field: it starts with a space and holds something else than white space. */
  predicate IsContinuation(l: string) {
    " " <= l && exists i :: 0 <= i < |l| && !IsSpace(l[i])
  }

  lemma FormattedSplitsBack(rawKey: string)
    requires Formatted(rawKey).Some?
    ensures Split(Formatted(rawKey).value, '\n') == FormatLines(Split(TrimSpace(rawKey), '\n'))
  {
    SplitJoin(FormatLines(Split(TrimSpace(rawKey), '\n')), '\n');
  }

  /**
   Every line of the field starts with a space and is longer than that. It is a continuation line exactly when the
   key line it comes from is empty or has visible text.
   */
  lemma FormattedLines(rawKey: string)
    requires Formatted(rawKey).Some?
    ensures var out, key := Split(Formatted(rawKey).value, '\n'), Split(TrimSpace(rawKey), '\n');
            |out| == |key| && forall i :: 0 <= i < |out| ==>
              " " <= out[i] && |out[i]| > 1
              && (IsContinuation(out[i]) <==> (key[i] == "" || exists j :: 0 <= j < |key[i]| && !IsSpace(key[i][j])))
  {
    FormattedSplitsBack(rawKey);
    var out, key := Split(Formatted(rawKey).value, '\n'), Split(TrimSpace(rawKey), '\n');
    forall i | 0 <= i < |out|
      ensures IsContinuation(out[i]) <==> (key[i] == "" || exists j :: 0 <= j < |key[i]| && !IsSpace(key[i][j]))
    {
      if key[i] == "" {
        assert !IsSpace(out[i][1]);
      } else {
        assert forall j :: 0 <= j < |key[i]| ==> out[i][j + 1] == key[i][j];
        if j :| 0 <= j < |key[i]| && !IsSpace(key[i][j]) {
          assert !IsSpace(out[i][j + 1]);
        }
        if IsContinuation(out[i]) {
          var j :| 0 <= j < |out[i]| && !IsSpace(out[i][j]);
          assert key[i][j - 1] == out[i][j];
        }
      }
    }
  }

  lemma DecodeOfFormat(l: string)
    ensures DecodeLine(FormatLine(l)) == if l == "." then "" else l
  {
    assert (" " + l)[1..] == l;
  }

  /** Decoding the field gives the trimmed key back exactly when no line of the key is a lone dot. */
  lemma KeyRoundTrip(rawKey: string)
    requires Formatted(rawKey).Some?
    ensures Decode(Formatted(rawKey).value) == TrimSpace(rawKey) <==> "." !in Split(TrimSpace(rawKey), '\n')
  {
    var key := Split(TrimSpace(rawKey), '\n');
    FormattedSplitsBack(rawKey);
    JoinSplit(TrimSpace(rawKey), '\n');
    var back := DecodeLines(FormatLines(key));
    forall i | 0 <= i < |key| ensures back[i] == if key[i] == "." then "" else key[i] {
      DecodeOfFormat(key[i]);
    }
    if "." !in key {
      assert back == key;
    } else {
      DotChanges(key, back);
    }
  }

  lemma DotChanges(key: seq<string>, back: seq<string>)
    requires |key| == |back| && forall i :: 0 <= i < |key| ==> '\n' !in key[i]
    requires forall i :: 0 <= i < |key| ==> back[i] == if key[i] == "." then "" else key[i]
    requires "." in key
    ensures Join(back, "\n") != Join(key, "\n")
  {
    SplitJoin(back, '\n');
    SplitJoin(key, '\n');
  }
}
