/**
 * Hashtag extraction with the pattern `/#\w+/g`, used by the server when a post is created
 * (server/Controllers/PostController.js) and by the post composer on the client
 * (client/src/components/CreatePost.jsx).
 */
module Hashtags {
  import opened Wrappers
  import opened Text
  import Seqs

  /** The length of the longest prefix of `s` made of `\w` characters. */
  function WordRun(s: string): (n: nat)
    ensures n <= |s|
    ensures forall i :: 0 <= i < n ==> IsWordChar(s[i])
    ensures n < |s| ==> !IsWordChar(s[n])
  {
    if |s| > 0 && IsWordChar(s[0]) then 1 + WordRun(s[1..]) else 0
  }

  /** What one match of `#\w+` looks like. */
  predicate IsHashtag(t: string)
  {
    |t| >= 2 && t[0] == '#' && forall i :: 1 <= i < |t| ==> IsWordChar(t[i])
  }

  /**
   * `s.match(/#\w+/g) || []`: the matches from left to right; each one is a `#` followed by
   * as many word characters as follow it, and the scan resumes after the match.
   */
  function Matches(s: string): (r: seq<string>)
    ensures forall t :: t in r ==> IsHashtag(t)
    ensures '#' !in s ==> r == []
    decreases |s|
  {
    if |s| < 2 then []
    else if s[0] == '#' && IsWordChar(s[1]) then
      var n := 1 + WordRun(s[1..]);
      [s[..n]] + Matches(s[n..])
    else Matches(s[1..])
  }

  function LowerAll(ts: seq<string>): (r: seq<string>)
    ensures |r| == |ts|
    ensures forall i :: 0 <= i < |ts| ==> r[i] == Lower(ts[i])
  {
    seq(|ts|, i requires 0 <= i < |ts| => Lower(ts[i]))
  }

  /** The ASCII lowering neither creates nor destroys word characters or `#`. */
  lemma LowerKeepsWordChars(c: char)
    ensures IsWordChar(LowerChar(c)) <==> IsWordChar(c)
    ensures (LowerChar(c) == '#') <==> (c == '#')
  {
  }

  /** The tags `createPost` stores: every match lower-cased, duplicates kept; `[]` without a description. */
  function ServerTags(desc: Option<string>): (r: seq<string>)
    ensures forall t :: t in r ==> IsHashtag(t) && Lower(t) == t
    ensures desc.None? ==> r == []
  {
    match desc
    case None => []
    case Some(d) =>
      var r := LowerAll(Matches(d));
      assert forall i :: 0 <= i < |r| ==> IsHashtag(r[i]) && Lower(r[i]) == r[i] by {
        forall i | 0 <= i < |r| ensures IsHashtag(r[i]) && Lower(r[i]) == r[i] {
          LowerHashtag(Matches(d)[i]);
        }
      }
      r
  }

  /** `extractHashtags` in the composer: the lower-cased matches, each kept once, first occurrence first. */
  function ClientTags(text: string): (r: seq<string>)
    ensures Seqs.NoDup(r)
    ensures forall t :: t in r <==> t in ServerTags(Some(text))
  {
    Seqs.Dedupe(LowerAll(Matches(text)))
  }

  /** A lower-cased hashtag is still a hashtag and is its own lower-case form. */
  lemma LowerHashtag(t: string)
    requires IsHashtag(t)
    ensures IsHashtag(Lower(t)) && Lower(Lower(t)) == Lower(t)
  {
    forall i | 1 <= i < |t| ensures IsWordChar(Lower(t)[i]) {
      LowerKeepsWordChars(t[i]);
    }
  }
}
