/** The string operations endpoint signatures are built from; letter case is ASCII only. */
module GoStrings {

  predicate IsSpace(c: char) {
    || '\t' <= c <= '\r' || c == ' '
    || c as int == 0x85 || c as int == 0xA0 || c as int == 0x1680 || 0x2000 <= c as int <= 0x200A
    || 0x2028 <= c as int <= 0x2029 || c as int == 0x202F || c as int == 0x205F || c as int == 0x3000
  }

  function SkipSpaces(s: string): string {
    if s != [] && IsSpace(s[0]) then SkipSpaces(s[1..]) else s
  }

  function DropSpaces(s: string): string {
    if s != [] && IsSpace(s[|s| - 1]) then DropSpaces(s[..|s| - 1]) else s
  }

  function TrimSpace(s: string): string { DropSpaces(SkipSpaces(s)) }

  function SkipSlashes(s: string): string {
    if s != [] && s[0] == '/' then SkipSlashes(s[1..]) else s
  }

  function DropSlashes(s: string): string {
    if s != [] && s[|s| - 1] == '/' then DropSlashes(s[..|s| - 1]) else s
  }

  function TrimSlashes(s: string): string { DropSlashes(SkipSlashes(s)) }

  predicate HasPrefix(s: string, prefix: string) { prefix <= s }

  function UpperChar(c: char): char {
    if 'a' <= c <= 'z' then c - 'a' + 'A' else c
  }

  function LowerChar(c: char): char {
    if 'A' <= c <= 'Z' then c - 'A' + 'a' else c
  }

  function ToUpper(s: string): (r: string)
    ensures |r| == |s|
  {
    seq(|s|, i requires 0 <= i < |s| => UpperChar(s[i]))
  }

  function ToLower(s: string): (r: string)
    ensures |r| == |s|
  {
    seq(|s|, i requires 0 <= i < |s| => LowerChar(s[i]))
  }

  /** No white space at either end; such a string is not empty. */
  predicate Trimmed(s: string) {
    s != [] && !IsSpace(s[0]) && !IsSpace(s[|s| - 1])
  }

  lemma TrimmedStays(s: string)
    requires Trimmed(s)
    ensures TrimSpace(s) == s
  {
  }

  lemma {:induction false} SkipSpacesStart(s: string)
    ensures var r := SkipSpaces(s);
      r == [] || (!IsSpace(r[0]) && r[|r| - 1] == s[|s| - 1])
  {
    if s == [] || !IsSpace(s[0]) {
    } else {
      SkipSpacesStart(s[1..]);
    }
  }

  lemma {:induction false} DropSpacesEnd(s: string)
    ensures var r := DropSpaces(s);
      r == [] || (!IsSpace(r[|r| - 1]) && |s| > 0 && r[0] == s[0])
  {
    if s == [] || !IsSpace(s[|s| - 1]) {
    } else {
      DropSpacesEnd(s[..|s| - 1]);
    }
  }

  /** Trimming leaves nothing, or a string with no white space at its ends, also in upper case. */
  lemma TrimSpaceTrims(s: string)
    ensures var r := TrimSpace(s);
      r == "" || (Trimmed(r) && Trimmed(ToUpper(r)))
  {
    SkipSpacesStart(s);
    DropSpacesEnd(SkipSpaces(s));
  }

  ghost predicate AllSpaces(s: string) {
    forall i :: 0 <= i < |s| ==> IsSpace(s[i])
  }

  lemma {:induction false} SkipSpacesPast(pre: string, s: string)
    requires AllSpaces(pre)
    ensures SkipSpaces(pre + s) == SkipSpaces(s)
  {
    if pre == "" {
      assert pre + s == s;
    } else {
      assert (pre + s)[1..] == pre[1..] + s;
      SkipSpacesPast(pre[1..], s);
    }
  }

  lemma {:induction false} DropSpacesPast(s: string, post: string)
    requires AllSpaces(post)
    ensures DropSpaces(s + post) == DropSpaces(s)
  {
    if post == "" {
      assert s + post == s;
    } else {
      assert (s + post)[..|s + post| - 1] == s + post[..|post| - 1];
      DropSpacesPast(s, post[..|post| - 1]);
    }
  }

  /** Trimming takes away the white space on both sides, all of it and nothing else. */
  lemma TrimSpaceExactly(pre: string, s: string, post: string)
    requires AllSpaces(pre) && AllSpaces(post) && (s == "" || Trimmed(s))
    ensures TrimSpace(pre + s + post) == s
  {
    assert pre + s + post == pre + (s + post);
    SkipSpacesPast(pre, s + post);
    if s == "" {
      assert s + post == post + "";
      SkipSpacesPast(post, "");
    } else {
      assert SkipSpaces(s + post) == s + post;
      DropSpacesPast(s, post);
    }
  }

  ghost predicate AllSlashes(s: string) {
    forall i :: 0 <= i < |s| ==> s[i] == '/'
  }

  lemma {:induction false} SkipSlashesPast(pre: string, s: string)
    requires AllSlashes(pre)
    ensures SkipSlashes(pre + s) == SkipSlashes(s)
  {
    if pre == "" {
      assert pre + s == s;
    } else {
      assert (pre + s)[1..] == pre[1..] + s;
      SkipSlashesPast(pre[1..], s);
    }
  }

  lemma {:induction false} DropSlashesPast(s: string, post: string)
    requires AllSlashes(post)
    ensures DropSlashes(s + post) == DropSlashes(s)
  {
    if post == "" {
      assert s + post == s;
    } else {
      assert (s + post)[..|s + post| - 1] == s + post[..|post| - 1];
      DropSlashesPast(s, post[..|post| - 1]);
    }
  }

  /** No slash at either end. */
  predicate Stripped(s: string) {
    s == "" || (s[0] != '/' && s[|s| - 1] != '/')
  }

  lemma TrimSlashesExactly(pre: string, s: string, post: string)
    requires AllSlashes(pre) && AllSlashes(post) && Stripped(s)
    ensures TrimSlashes(pre + s + post) == s
  {
    assert pre + s + post == pre + (s + post);
    SkipSlashesPast(pre, s + post);
    if s == "" {
      assert s + post == post + "";
      SkipSlashesPast(post, "");
    } else {
      assert SkipSlashes(s + post) == s + post;
      DropSlashesPast(s, post);
    }
  }

  /** Letter case is all that upper and lower case change. */
  lemma CaseLaws(s: string)
    ensures ToUpper(ToLower(s)) == ToUpper(s) && ToLower(ToUpper(s)) == ToLower(s)
    ensures forall i :: 0 <= i < |s| ==> ToUpper(s)[i] == s[i] || ToLower(s)[i] == s[i]
    ensures forall i :: 0 <= i < |s| && 'a' <= s[i] <= 'z' ==> 'A' <= ToUpper(s)[i] <= 'Z'
  {
  }
}
