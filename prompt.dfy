/** The cleanup question after a restore (index.js:153-162, index.js:184):
    the answer is trimmed and lower-cased, and only `y` or `yes` agrees. */
module Prompt {
  import opened Text

  /** `ans.trim().toLowerCase()`, what `ask` hands its callback. */
  function NormalizeAnswer(ans: string): string {
    Lower(Trim(ans))
  }

  predicate IsYes(a: string) {
    a == "y" || a == "yes"
  }

  /** The answer agrees to deleting the parts. */
  predicate Confirms(ans: string)
    ensures Confirms(ans) ==> |Trim(ans)| == 1 || |Trim(ans)| == 3
  {
    IsYes(NormalizeAnswer(ans))
  }

  /** Only a word that lower-cases to `y` or `yes` confirms, and it does so
      with any whitespace around it. */
  lemma ConfirmsPadded(p: string, w: string, q: string)
    requires AllWhitespace(p) && AllWhitespace(q)
    requires w != [] ==> !IsJsWhitespace(w[0]) && !IsJsWhitespace(w[|w| - 1])
    ensures Confirms(p + w + q) <==> IsYes(Lower(w))
  {
    TrimPadded(p, w, q);
  }

  /** A confirming answer is, once trimmed, `y` or `yes` in any mix of
      cases. */
  lemma ConfirmsShape(ans: string)
    requires Confirms(ans)
    ensures var t := Trim(ans);
            && (t[0] == 'y' || t[0] == 'Y')
            && (|t| == 3 ==> (t[1] == 'e' || t[1] == 'E') && (t[2] == 's' || t[2] == 'S'))
  {
    var t := Trim(ans);
    assert Lower(t)[0] == LowerChar(t[0]);
    if |t| == 3 {
      assert Lower(t)[1] == LowerChar(t[1]) && Lower(t)[2] == LowerChar(t[2]);
    }
  }

  lemma ConfirmsUpperY()
    ensures Confirms("Y")
  {
    ConfirmsPadded("", "Y", "");
    assert "" + "Y" + "" == "Y";
  }

  lemma DeclinesNo()
    ensures !Confirms("n")
  {
    ConfirmsPadded("", "n", "");
    assert "" + "n" + "" == "n";
  }

  lemma DeclinesEmpty()
    ensures !Confirms("")
  {
    ConfirmsPadded("", "", "");
  }
}
