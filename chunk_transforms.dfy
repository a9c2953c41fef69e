/**
  The two Transform streams of the stdin-to-stdout script and their pipeline.
  upperCaseStream upper-cases each chunk; reverseStream splits a chunk into characters,
  takes off the last one, reverses the others and puts the last one back at the end.
  Together they turn a typed line such as "saamaalet\n" into "TELAAMAAS\n".
 */
module ChunkTransforms {
  import opened JsRuntime

  predicate IsLower(c: char) {
    'a' <= c <= 'z'
  }

  predicate IsUpper(c: char) {
    'A' <= c <= 'Z'
  }

  predicate IsLetter(c: char) {
    IsLower(c) || IsUpper(c)
  }

  predicate IsAscii(s: string) {
    forall i :: 0 <= i < |s| ==> s[i] as int < 128
  }

  /** Upper-casing of one character, for the ASCII letters. */
  function UpperChar(c: char): char {
    if IsLower(c) then (c as int - 32) as char else c
  }

  /** Lower-casing of one character, for the ASCII letters. */
  function LowerChar(c: char): char {
    if IsUpper(c) then (c as int + 32) as char else c
  }

  /** String.prototype.toUpperCase on the ASCII letters, character by character. */
  function UpperCase(s: string): (r: string)
    ensures |r| == |s|
  {
    if s == [] then [] else [UpperChar(s[0])] + UpperCase(s[1..])
  }

  /** String.prototype.toLowerCase on the ASCII letters, character by character. */
  function LowerCase(s: string): string {
    if s == [] then [] else [LowerChar(s[0])] + LowerCase(s[1..])
  }

  /** Array.prototype.reverse on the characters. */
  function Reverse(s: string): (r: string)
    ensures |r| == |s|
  {
    if s == [] then [] else [s[|s| - 1]] + Reverse(s[..|s| - 1])
  }

  /**
    reverseStream's transform. `pop` on an empty array gives undefined, and
    `[undefined].join('')` is the empty string, so the empty chunk stays empty.
   */
  function ReverseKeepLast(s: string): (r: string)
    ensures |r| == |s|
    ensures s != [] ==> r[|s| - 1] == s[|s| - 1]
  {
    if s == [] then [] else Reverse(s[..|s| - 1]) + [s[|s| - 1]]
  }

  /** What the pipeline writes for one chunk: upper-cased first, then reversed. */
  function Transform(chunk: string): (r: string)
    ensures |r| == |chunk|
  {
    ReverseKeepLast(UpperCase(chunk))
  }

  /** What reaches stdout for the chunks read from stdin, in order. */
  function Output(chunks: seq<string>): string {
    if chunks == [] then [] else Output(chunks[..|chunks| - 1]) + Transform(chunks[|chunks| - 1])
  }

  // ---------------------------------------------------------------------------
  // Upper case
  // ---------------------------------------------------------------------------

  /** Upper-casing keeps the length and maps each position on its own. */
  lemma {:induction false} UpperCaseAt(s: string)
    ensures |UpperCase(s)| == |s|
    ensures forall i :: 0 <= i < |s| ==> UpperCase(s)[i] == UpperChar(s[i])
  {
    if s != [] {
      UpperCaseAt(s[1..]);
      assert forall i :: 1 <= i < |s| ==> UpperCase(s)[i] == UpperCase(s[1..])[i - 1];
    }
  }

  /** The same for lower-casing. */
  lemma {:induction false} LowerCaseAt(s: string)
    ensures |LowerCase(s)| == |s|
    ensures forall i :: 0 <= i < |s| ==> LowerCase(s)[i] == LowerChar(s[i])
  {
    if s != [] {
      LowerCaseAt(s[1..]);
      assert forall i :: 1 <= i < |s| ==> LowerCase(s)[i] == LowerCase(s[1..])[i - 1];
    }
  }

  /** Upper-casing leaves every character that is not a letter where and what it was, and no lower-case letter behind. */
  lemma UpperCaseShape(s: string)
    ensures |UpperCase(s)| == |s|
    ensures forall i :: 0 <= i < |s| && !IsLetter(s[i]) ==> UpperCase(s)[i] == s[i]
    ensures forall i :: 0 <= i < |s| ==> !IsLower(UpperCase(s)[i])
    ensures IsAscii(s) ==> IsAscii(UpperCase(s))
  {
    UpperCaseAt(s);
  }

  /** Upper-casing twice is upper-casing once. */
  lemma UpperCaseIdempotent(s: string)
    ensures UpperCase(UpperCase(s)) == UpperCase(s)
  {
    UpperCaseAt(s);
    UpperCaseAt(UpperCase(s));
  }

  /** Upper-casing splits over concatenation. */
  lemma {:induction false} UpperCaseAppend(a: string, b: string)
    ensures UpperCase(a + b) == UpperCase(a) + UpperCase(b)
  {
    UpperCaseAt(a + b);
    UpperCaseAt(a);
    UpperCaseAt(b);
    assert forall i :: 0 <= i < |a| ==> (a + b)[i] == a[i];
    assert forall i :: |a| <= i < |a + b| ==> (a + b)[i] == b[i - |a|];
  }

  /** For one character: lower-casing undoes upper-casing unless the character was upper case. */
  lemma LowerUpperChar(c: char)
    ensures LowerChar(UpperChar(c)) == c <==> !IsUpper(c)
  {
    if IsLower(c) {
      assert IsUpper(UpperChar(c));
    }
  }

  /**
    Lower-casing the upper-cased text gives the text back exactly when the text had
    no upper-case letter to begin with: upper-casing loses the case of the letters.
   */
  lemma LowerUndoesUpper(s: string)
    ensures LowerCase(UpperCase(s)) == s <==> forall i :: 0 <= i < |s| ==> !IsUpper(s[i])
  {
    var u := UpperCase(s);
    UpperCaseAt(s);
    LowerCaseAt(u);
    forall i | 0 <= i < |s| ensures LowerCase(u)[i] == s[i] <==> !IsUpper(s[i]) {
      LowerUpperChar(s[i]);
    }
    if forall i :: 0 <= i < |s| ==> !IsUpper(s[i]) {
      assert LowerCase(u) == s;
    }
  }

  // ---------------------------------------------------------------------------
  // Reverse
  // ---------------------------------------------------------------------------

  /** Reversing keeps the length and reads the text from the other end. */
  lemma {:induction false} ReverseAt(s: string)
    ensures |Reverse(s)| == |s|
    ensures forall i :: 0 <= i < |s| ==> Reverse(s)[i] == s[|s| - 1 - i]
  {
    if s != [] {
      var init := s[..|s| - 1];
      ReverseAt(init);
      assert forall i :: 1 <= i < |s| ==> Reverse(s)[i] == Reverse(init)[i - 1];
    }
  }

  /** Reversing twice gives the text back. */
  lemma ReverseReverse(s: string)
    ensures Reverse(Reverse(s)) == s
  {
    ReverseAt(s);
    ReverseAt(Reverse(s));
  }

  /**
    The shape of reverseStream's output: for a non-empty chunk the last character stays
    last and the characters before it come in reverse order; the length is kept.
   */
  lemma ReverseKeepLastAt(s: string)
    ensures |ReverseKeepLast(s)| == |s|
    ensures s != [] ==> ReverseKeepLast(s)[|s| - 1] == s[|s| - 1]
    ensures forall i :: 0 <= i < |s| - 1 ==> ReverseKeepLast(s)[i] == s[|s| - 2 - i]
  {
    if s != [] {
      ReverseAt(s[..|s| - 1]);
    }
  }

  /** reverseStream undoes itself. */
  lemma ReverseKeepLastInvolution(s: string)
    ensures ReverseKeepLast(ReverseKeepLast(s)) == s
  {
    var r := ReverseKeepLast(s);
    ReverseKeepLastAt(s);
    ReverseKeepLastAt(r);
    assert forall i :: 0 <= i < |s| - 1 ==> ReverseKeepLast(r)[i] == s[i];
  }

  /** Upper-casing and reverseStream commute, so the order of the two stages does not matter. */
  lemma UpperCommutesWithReverse(s: string)
    ensures UpperCase(ReverseKeepLast(s)) == ReverseKeepLast(UpperCase(s))
  {
    var r := ReverseKeepLast(s);
    ReverseKeepLastAt(s);
    UpperCaseAt(s);
    UpperCaseAt(r);
    ReverseKeepLastAt(UpperCase(s));
  }

  /** A chunk that ends with a newline comes out fully reversed, the newline still last. */
  lemma LineIsReversed(line: string)
    ensures ReverseKeepLast(line + "\n") == Reverse(line) + "\n"
  {
    assert (line + "\n")[..|line|] == line;
  }

  /** For example, "abcde" becomes "dcbae". */
  lemma ExampleAbcde()
    ensures ReverseKeepLast("abcde") == "dcbae"
  {
    assert "abcde"[..4] == "abcd";
    ReverseAt("abcd");
  }

  /** The typed line "saamaalet" comes back as "telaamaas", the newline kept at the end. */
  lemma ExampleTypedLine()
    ensures ReverseKeepLast("saamaalet\n") == "telaamaas\n"
  {
    assert "saamaalet\n" == "saamaalet" + "\n";
    assert "telaamaas\n" == "telaamaas" + "\n";
    LineIsReversed("saamaalet");
    ReverseAt("saamaalet");
    assert Reverse("saamaalet") == "telaamaas";
  }

  /** Through the pipeline a line ending in a newline comes out upper-cased and reversed, the newline last. */
  lemma TransformLine(line: string)
    ensures Transform(line + "\n") == Reverse(UpperCase(line)) + "\n"
  {
    UpperCaseAppend(line, "\n");
    assert UpperCase("\n") == "\n";
    LineIsReversed(UpperCase(line));
  }

  lemma UpperSaamaalet()
    ensures UpperCase("saamaalet") == "SAAMAALET"
  {
    UpperCaseAt("saamaalet");
  }

  lemma ReverseSaamaalet()
    ensures Reverse("SAAMAALET") == "TELAAMAAS"
  {
    ReverseAt("SAAMAALET");
  }

  /** Through the whole pipeline the typed line comes out upper-cased as well. */
  lemma ExamplePipelineLine()
    ensures Transform("saamaalet\n") == "TELAAMAAS\n"
  {
    assert "saamaalet\n" == "saamaalet" + "\n";
    assert "TELAAMAAS\n" == "TELAAMAAS" + "\n";
    TransformLine("saamaalet");
    UpperSaamaalet();
    ReverseSaamaalet();
  }

  /** The empty chunk stays empty. */
  lemma ExampleEmpty()
    ensures ReverseKeepLast("") == "" && Transform("") == ""
  {
  }

  // ---------------------------------------------------------------------------
  // The pipeline
  // ---------------------------------------------------------------------------

  /** Each chunk is transformed on its own: the output of a concatenated stream is the concatenated output. */
  lemma {:induction false} OutputAppend(a: seq<string>, b: seq<string>)
    ensures Output(a + b) == Output(a) + Output(b)
  {
    if b == [] {
      assert a + b == a;
    } else {
      var ab := a + b;
      var init := b[..|b| - 1];
      var last := b[|b| - 1];
      assert ab[..|ab| - 1] == a + init;
      assert ab[|ab| - 1] == last;
      assert Output(ab) == Output(a + init) + Transform(last);
      assert Output(b) == Output(init) + Transform(last);
      OutputAppend(a, init);
    }
  }

  /** The pipeline writes as many characters as it reads. */
  lemma {:induction false} OutputLength(chunks: seq<string>)
    ensures |Output(chunks)| == |Concat(chunks)|
  {
    if chunks != [] {
      OutputLength(chunks[..|chunks| - 1]);
      UpperCaseAt(chunks[|chunks| - 1]);
      ReverseKeepLastAt(UpperCase(chunks[|chunks| - 1]));
    }
  }

  /**
    Chunk boundaries matter: the same text read as one chunk or as two gives
    different output, because each chunk keeps its own last character.
   */
  lemma ChunkingChangesOutput()
    ensures Concat(["ab", "c"]) == Concat(["abc"])
    ensures Output(["abc"]) == "BAC"
    ensures Output(["ab", "c"]) == "ABC"
  {
    assert ["ab", "c"][..1] == ["ab"];
    assert Concat(["ab"]) == "ab" by { assert ["ab"][..0] == []; }
    assert Output(["abc"]) == Transform("abc") by { assert ["abc"][..0] == []; }
    assert Output(["ab"]) == Transform("ab") by { assert ["ab"][..0] == []; }
    assert Concat(["abc"]) == "abc" by { assert ["abc"][..0] == []; }
    assert UpperCase("abc") == "ABC" by { UpperCaseAt("abc"); }
    assert UpperCase("ab") == "AB" by { UpperCaseAt("ab"); }
    assert UpperCase("c") == "C" by { UpperCaseAt("c"); }
    assert Reverse("AB") == "BA" by { ReverseAt("AB"); }
    assert "ABC"[..2] == "AB";
    assert "AB"[..1] == "A";
    assert "C"[..0] == [];
  }
}
