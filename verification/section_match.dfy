/** Which rows a section query selects (main.py:123). The query tests whether
    the section tag occurs in the stored section text; on the decoded list
    this is "the tag is a substring of some element". */
module SectionMatch {

  /** `t` occurs in `s` starting at position `i`. */
  ghost predicate OccursAt(t: string, s: string, i: nat) {
    i + |t| <= |s| && s[i..i + |t|] == t
  }

  /** `t` occurs somewhere in `s` (the `contains` test). */
  predicate IsSubstring(t: string, s: string): (b: bool)
    ensures t <= s ==> b
    ensures b ==> |t| <= |s|
    decreases |s|
  {
    t <= s || (s != [] && IsSubstring(t, s[1..]))
  }

  /** The section query's filter: `tag` occurs in some element of `section`.
      In particular a section list holding the tag itself is selected. */
  predicate Matches(tag: string, section: seq<string>): (b: bool)
    ensures b ==> exists k :: 0 <= k < |section| && IsSubstring(tag, section[k])
    ensures tag in section ==> b
    decreases |section|
  {
    if section == [] then false
    else if IsSubstring(tag, section[0]) then true
    else
      var rest := Matches(tag, section[1..]);
      assert forall k :: 1 <= k < |section| ==> section[k] == section[1..][k - 1];
      rest
  }

  /** An occurrence at the start is a prefix. */
  lemma OccursAtStart(t: string, s: string)
    ensures OccursAt(t, s, 0) <==> t <= s
  {
  }

  /** Occurrences past the start are the occurrences in the tail. */
  lemma OccursShift(t: string, s: string, i: nat)
    requires s != [] && 0 < i
    ensures OccursAt(t, s, i) <==> OccursAt(t, s[1..], i - 1)
  {
    if i + |t| <= |s| {
      assert s[i..i + |t|] == s[1..][i - 1..i - 1 + |t|];
    }
  }

  /** The scan agrees with the positional definition of an occurrence. */
  lemma {:induction false} IsSubstringIffOccurs(t: string, s: string)
    ensures IsSubstring(t, s) <==> exists i: nat :: OccursAt(t, s, i)
    decreases |s|
  {
    if t <= s {
      assert OccursAt(t, s, 0);
    } else if s == [] {
      forall i: nat ensures !OccursAt(t, s, i) {
        OccursAtStart(t, s);
      }
    } else {
      IsSubstringIffOccurs(t, s[1..]);
      if IsSubstring(t, s[1..]) {
        var i: nat :| OccursAt(t, s[1..], i);
        assert s[i + 1..i + 1 + |t|] == s[1..][i..i + |t|];
        assert OccursAt(t, s, i + 1);
      } else {
        forall i: nat ensures !OccursAt(t, s, i) {
          if i == 0 {
            OccursAtStart(t, s);
          } else {
            OccursShift(t, s, i);
          }
        }
      }
    }
  }

  /** A string shorter than the tag cannot contain it. */
  lemma {:induction false} ShorterNeverContains(t: string, s: string)
    requires |s| < |t|
    ensures !IsSubstring(t, s)
    decreases |s|
  {
    if s != [] {
      ShorterNeverContains(t, s[1..]);
    }
  }

  /** The scan over the list agrees with "some element contains the tag". */
  lemma {:induction false} MatchesIffSomeElement(tag: string, section: seq<string>)
    ensures Matches(tag, section) <==> exists k :: 0 <= k < |section| && IsSubstring(tag, section[k])
    decreases |section|
  {
    if section != [] {
      MatchesIffSomeElement(tag, section[1..]);
      if Matches(tag, section[1..]) {
        var k :| 0 <= k < |section[1..]| && IsSubstring(tag, section[1..][k]);
        assert section[k + 1] == section[1..][k];
      }
      if exists k :: 0 <= k < |section| && IsSubstring(tag, section[k]) {
        var k :| 0 <= k < |section| && IsSubstring(tag, section[k]);
        if k > 0 {
          assert section[1..][k - 1] == section[k];
        }
      }
    }
  }

  /** A row whose section list holds the tag itself is always selected. */
  lemma ExactTagMatches(tag: string, section: seq<string>)
    requires tag in section
    ensures Matches(tag, section)
  {
    var k :| 0 <= k < |section| && section[k] == tag;
    assert IsSubstring(tag, section[k]);
    MatchesIffSomeElement(tag, section);
  }

  /** Selection is looser than membership: a label that merely contains the
      tag is selected as well. */
  lemma ContainmentIsNotMembership()
    ensures Matches("Dinner", ["Late Dinner"]) && "Dinner" !in ["Late Dinner"]
  {
    assert IsSubstring("Dinner", "Dinner");
    assert "Late Dinner"[5..] == "Dinner";
    assert IsSubstring("Dinner", "Late Dinner"[1..][1..][1..][1..][1..]);
  }
}
