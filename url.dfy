/**
 The destination URL of a channel: the URL template with every "{pemfc_id}"
 replaced by the channel id written in decimal (str.replace with str(id)).
 */
module Url {
  import opened Decimal

  const Placeholder: string := "{pemfc_id}"

  predicate OccursAt(s: string, pat: string, i: nat)
  {
    i + |pat| <= |s| && s[i..i + |pat|] == pat
  }

  ghost predicate Occurs(s: string, pat: string)
  {
    exists i: nat :: OccursAt(s, pat, i)
  }

  /**
   str.replace(pat, rep): occurrences are found left to right, each replaced
   one is skipped over, and the text between them is copied.
   */
  function ReplaceAll(s: string, pat: string, rep: string): string
    requires |pat| > 0
    decreases |s|
  {
    if |s| < |pat| then s
    else if s[..|pat|] == pat then rep + ReplaceAll(s[|pat|..], pat, rep)
    else [s[0]] + ReplaceAll(s[1..], pat, rep)
  }

  /** A text without the pattern is returned unchanged. */
  lemma {:induction false} ReplaceAllNoOccurrence(s: string, pat: string, rep: string)
    requires |pat| > 0 && !Occurs(s, pat)
    ensures ReplaceAll(s, pat, rep) == s
  {
    if |s| >= |pat| {
      assert !OccursAt(s, pat, 0);
      assert s[..|pat|] != pat;
      assert !Occurs(s[1..], pat) by {
        forall i: nat ensures !OccursAt(s[1..], pat, i) {
          assert !OccursAt(s, pat, i + 1);
          if i + |pat| <= |s| - 1 {
            assert s[1..][i..i + |pat|] == s[i + 1..i + 1 + |pat|];
          }
        }
      }
      ReplaceAllNoOccurrence(s[1..], pat, rep);
    }
  }

  /**
   A prefix of the result that holds no character of the replacement was
   copied from the input unchanged.
   */
  lemma {:induction false} ReplaceAllCopiedPrefix(u: string, pat: string, rep: string, k: nat)
    requires |pat| > 0 && |rep| > 0
    requires k <= |ReplaceAll(u, pat, rep)|
    requires forall j :: 0 <= j < k ==> ReplaceAll(u, pat, rep)[j] !in rep
    ensures k <= |u| && ReplaceAll(u, pat, rep)[..k] == u[..k]
  {
    var t := ReplaceAll(u, pat, rep);
    if k > 0 && |u| >= |pat| {
      assert t[0] !in rep;
      assert rep[0] in rep;
      var t' := ReplaceAll(u[1..], pat, rep);
      assert t == [u[0]] + t';
      forall j | 0 <= j < k - 1 ensures t'[j] !in rep {
        assert t'[j] == t[j + 1];
      }
      ReplaceAllCopiedPrefix(u[1..], pat, rep, k - 1);
      assert t[..k] == [u[0]] + t'[..k - 1];
      assert u[..k] == [u[0]] + u[1..][..k - 1];
    }
  }

  /** An occurrence at the start of copied text already stood in the input. */
  lemma CopiedOccurrence(s: string, pat: string, rep: string)
    requires |pat| > 0 && |rep| > 0 && |s| >= |pat|
    requires forall c :: c in rep ==> c !in pat
    ensures OccursAt([s[0]] + ReplaceAll(s[1..], pat, rep), pat, 0) ==> s[..|pat|] == pat
  {
    var t' := ReplaceAll(s[1..], pat, rep);
    var t := [s[0]] + t';
    if OccursAt(t, pat, 0) {
      var k := |pat| - 1;
      forall j | 0 <= j < k ensures t'[j] !in rep {
        assert t'[j] == t[j + 1] == pat[j + 1];
      }
      ReplaceAllCopiedPrefix(s[1..], pat, rep, k);
      assert s[..|pat|] == [s[0]] + s[1..][..k];
      assert t[..|pat|] == [t[0]] + t'[..k];
    }
  }

  /**
   When the replacement shares no character with the pattern, the result
   holds no occurrence of the pattern: every one was replaced.
   */
  lemma {:induction false} ReplaceAllRemovesAll(s: string, pat: string, rep: string)
    requires |pat| > 0 && |rep| > 0
    requires forall c :: c in rep ==> c !in pat
    ensures !Occurs(ReplaceAll(s, pat, rep), pat)
  {
    var t := ReplaceAll(s, pat, rep);
    if |s| < |pat| {
      forall i: nat ensures !OccursAt(t, pat, i) { }
    } else if s[..|pat|] == pat {
      var t' := ReplaceAll(s[|pat|..], pat, rep);
      ReplaceAllRemovesAll(s[|pat|..], pat, rep);
      forall i: nat ensures !OccursAt(t, pat, i) {
        if i < |rep| {
          assert t[i] == rep[i];
          assert pat[0] in pat;
        } else {
          assert !OccursAt(t', pat, i - |rep|);
          if i + |pat| <= |t| {
            assert t[i..i + |pat|] == t'[i - |rep|..i - |rep| + |pat|];
          }
        }
      }
    } else {
      var t' := ReplaceAll(s[1..], pat, rep);
      ReplaceAllRemovesAll(s[1..], pat, rep);
      CopiedOccurrence(s, pat, rep);
      forall i: nat ensures !OccursAt(t, pat, i) {
        if i > 0 {
          assert !OccursAt(t', pat, i - 1);
          if i + |pat| <= |t| {
            assert t[i..i + |pat|] == t'[i - 1..i - 1 + |pat|];
          }
        }
      }
    }
  }

  /**
   The first occurrence is replaced and the text before it copied: when a
   holds no occurrence starting inside it, a + pat + b becomes
   a + rep + (b with every occurrence replaced).
   */
  lemma {:induction false} ReplaceAllFirst(a: string, b: string, pat: string, rep: string)
    requires |pat| > 0
    requires forall i: nat :: i < |a| ==> !OccursAt(a + pat + b, pat, i)
    ensures ReplaceAll(a + pat + b, pat, rep) == a + rep + ReplaceAll(b, pat, rep)
  {
    if |a| == 0 {
      assert a + pat + b == pat + b;
      ReplaceAllAtStart(b, pat, rep);
    } else {
      NoOccurrenceShift(a, b, pat);
      ReplaceAllFirst(a[1..], b, pat, rep);
      ReplaceAllSkip(a + pat + b, pat, rep);
      assert a + rep + ReplaceAll(b, pat, rep) == [a[0]] + (a[1..] + rep + ReplaceAll(b, pat, rep));
    }
  }

  /** An occurrence at the start is replaced and the rest handled on its own. */
  lemma ReplaceAllAtStart(b: string, pat: string, rep: string)
    requires |pat| > 0
    ensures ReplaceAll(pat + b, pat, rep) == rep + ReplaceAll(b, pat, rep)
  {
    var s := pat + b;
    assert s[..|pat|] == pat;
    assert s[|pat|..] == b;
  }

  /** A first character that starts no occurrence is copied. */
  lemma ReplaceAllSkip(s: string, pat: string, rep: string)
    requires |pat| > 0 && |s| >= |pat| && s[..|pat|] != pat
    ensures ReplaceAll(s, pat, rep) == [s[0]] + ReplaceAll(s[1..], pat, rep)
  {
  }

  /** Dropping the first character of a keeps a free of occurrences. */
  lemma NoOccurrenceShift(a: string, b: string, pat: string)
    requires |pat| > 0 && |a| > 0
    requires forall i: nat :: i < |a| ==> !OccursAt(a + pat + b, pat, i)
    ensures (a + pat + b)[..|pat|] != pat
    ensures (a + pat + b)[1..] == a[1..] + pat + b
    ensures forall i: nat :: i < |a| - 1 ==> !OccursAt(a[1..] + pat + b, pat, i)
  {
    var s := a + pat + b;
    var a' := a[1..];
    assert !OccursAt(s, pat, 0);
    assert s[1..] == a' + pat + b;
    forall i: nat | i < |a'| ensures !OccursAt(a' + pat + b, pat, i) {
      assert !OccursAt(s, pat, i + 1);
      assert (a' + pat + b)[i..i + |pat|] == s[i + 1..i + 1 + |pat|];
    }
  }

  /** The URL of channel id: the template with the id in place of every placeholder. */
  function FormatUrl(template: string, id: int): string
  {
    ReplaceAll(template, Placeholder, IntToString(id))
  }

  /**
   No placeholder is left in a channel's URL, and a template without one is
   used as it is.
   */
  lemma FormatUrlSubstitutes(template: string, id: int)
    ensures !Occurs(FormatUrl(template, id), Placeholder)
    ensures !Occurs(template, Placeholder) ==> FormatUrl(template, id) == template
  {
    var rep := IntToString(id);
    IntToStringRoundTrip(id);
    forall c | c in rep ensures c !in Placeholder {
      var i :| 0 <= i < |rep| && rep[i] == c;
      assert IsDigit(c) || c == '-';
    }
    ReplaceAllRemovesAll(template, Placeholder, rep);
    if !Occurs(template, Placeholder) {
      ReplaceAllNoOccurrence(template, Placeholder, rep);
    }
  }

  /**
   The id stands where the first placeholder stood: a template
   a + "{pemfc_id}" + b, with no placeholder starting inside a, gives
   a + str(id) followed by b with its own placeholders substituted.
   */
  lemma FormatUrlFirst(a: string, b: string, id: int)
    requires forall i: nat :: i < |a| ==> !OccursAt(a + Placeholder + b, Placeholder, i)
    ensures FormatUrl(a + Placeholder + b, id) == a + IntToString(id) + FormatUrl(b, id)
  {
    ReplaceAllFirst(a, b, Placeholder, IntToString(id));
  }

  /** A template with one placeholder: "h/{pemfc_id}/d" for channel 3 is "h/3/d". */
  lemma FormatUrlExample()
    ensures FormatUrl("h/" + Placeholder + "/d", 3) == "h/3/d"
  {
    var a, b := "h/", "/d";
    forall i: nat | i < |a| ensures !OccursAt(a + Placeholder + b, Placeholder, i) {
      assert (a + Placeholder + b)[i] != '{';
    }
    FormatUrlFirst(a, b, 3);
    assert IntToString(3) == "3";
    assert !Occurs(b, Placeholder) by {
      forall i: nat ensures !OccursAt(b, Placeholder, i) { }
    }
    ReplaceAllNoOccurrence(b, Placeholder, IntToString(3));
  }
}
