/** Reviewer names are compared stripped and in lower case. */
module ReviewerNames {

  function LowerChar(c: char): char { if 'A' <= c <= 'Z' then c - 'A' + 'a' else c }

  function Lower(s: string): string {
    if s == [] then [] else [LowerChar(s[0])] + Lower(s[1..])
  }

  function StripLeft(s: string): string {
    if s != [] && s[0] == ' ' then StripLeft(s[1..]) else s
  }

  function StripRight(s: string): string {
    if s != [] && s[|s| - 1] == ' ' then StripRight(s[..|s| - 1]) else s
  }

  function Strip(s: string): string { StripRight(StripLeft(s)) }

  predicate Names(name: string, lowerName: string) { Lower(Strip(name)) == lowerName }

  /** Lower case is taken letter by letter. */
  lemma {:induction false} LowerMeans(s: string, k: nat)
    requires k < |s|
    ensures |Lower(s)| == |s|
    ensures Lower(s)[k] as int == s[k] as int + if 65 <= s[k] as int <= 90 then 32 else 0
    decreases |s|
  {
    if |s| > 1 {
      LowerMeans(s[1..], if k > 0 then k - 1 else 0);
    }
  }

  ghost predicate Blank(s: string) { forall k | 0 <= k < |s| :: s[k] == ' ' }

  lemma {:induction false} StripLeftMeans(s: string) returns (before: string)
    ensures s == before + StripLeft(s) && Blank(before)
    ensures StripLeft(s) != "" ==> StripLeft(s)[0] != ' '
    decreases |s|
  {
    if s != "" && s[0] == ' ' {
      var rest := StripLeftMeans(s[1..]);
      before := " " + rest;
      assert s == " " + s[1..];
    } else {
      before := "";
    }
  }

  lemma {:induction false} StripRightMeans(s: string) returns (after: string)
    ensures s == StripRight(s) + after && Blank(after)
    ensures StripRight(s) != "" ==> StripRight(s)[|StripRight(s)| - 1] != ' '
    decreases |s|
  {
    if s != "" && s[|s| - 1] == ' ' {
      var rest := StripRightMeans(s[..|s| - 1]);
      after := rest + " ";
      assert s == s[..|s| - 1] + " ";
    } else {
      after := "";
    }
  }

  /** Stripping takes away blanks at both ends and leaves none there. */
  lemma StripMeans(s: string) returns (before: string, after: string)
    ensures s == before + Strip(s) + after && Blank(before) && Blank(after)
    ensures Strip(s) != "" ==> Strip(s)[0] != ' ' && Strip(s)[|Strip(s)| - 1] != ' '
  {
    before := StripLeftMeans(s);
    after := StripRightMeans(StripLeft(s));
    if Strip(s) != "" {
      assert Strip(s)[0] == StripLeft(s)[0];
    }
  }

  /** A name is its own stripped form exactly when no blank stands at either end. */
  lemma StrippedIff(s: string)
    ensures Strip(s) == s <==> s == "" || (s[0] != ' ' && s[|s| - 1] != ' ')
  {
    var before, after := StripMeans(s);
    if Strip(s) != s {
      assert s[0] == ' ' || s[|s| - 1] == ' ' by {
        if before != "" { assert s[0] == before[0]; } else { assert s[|s| - 1] == after[|after| - 1]; }
      }
    }
  }
}
