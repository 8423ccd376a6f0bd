/** The `is_private?` check of ip_count.rb: a regular-expression match of a
    dotted quad, `to_i` on its four groups, a range check on every octet, and
    the private-range test of section 3 of RFC 1918 on the first two octets. */
module IpAddress {
  import opened Results
  import opened Decimal

  /** Two readings of the pattern `^(\d{1,3}).(\d{1,3}).(\d{1,3}).(\d{1,3})$`.
      AsWritten is what Ruby does with it: the unescaped `.` matches any
      character but a newline, and `^`/`$` match at line boundaries.
      Intended is the reading its authors evidently meant: a literal dot, with
      the pattern anchored at the two ends of the string. */
  datatype Dialect = AsWritten | Intended

  /** What the `.` between two groups accepts */
  predicate IsSeparator(d: Dialect, c: char) {
    match d
    case AsWritten => c != '\n'
    case Intended => c == '.'
  }

  /** `^`: the start of the string or just after a newline */
  predicate AtLineStart(s: string, p: nat)
    requires p <= |s|
  {
    p == 0 || s[p - 1] == '\n'
  }

  /** `$` as written (the end of the string or just before a newline), or the
      end of the string alone as intended */
  predicate AtEnd(d: Dialect, s: string, p: nat)
    requires p <= |s|
  {
    p == |s| || (d == AsWritten && s[p] == '\n')
  }

  /** What one `(\d{1,3})` captures */
  predicate IsGroup(g: string) {
    1 <= |g| <= 3 && AllDigits(g)
  }

  /** From position i on, s holds the groups gs with one separator between
      each two of them and an end anchor after the last: one way for the
      rest of the pattern to match there */
  predicate GroupsAt(d: Dialect, s: string, i: nat, gs: seq<string>)
    requires i <= |s|
    decreases |gs|
  {
    |gs| >= 1 && IsGroup(gs[0]) && i + |gs[0]| <= |s| && s[i..i + |gs[0]|] == gs[0] &&
    (if |gs| == 1 then AtEnd(d, s, i + |gs[0]|)
     else i + |gs[0]| < |s| && IsSeparator(d, s[i + |gs[0]|]) && GroupsAt(d, s, i + |gs[0]| + 1, gs[1..]))
  }

  /** s holds n digits from position i on */
  predicate DigitsAt(s: string, i: nat, n: nat)
    requires i + n <= |s|
  {
    forall j :: i <= j < i + n ==> IsDigit(s[j])
  }

  /** The backtracking search of Ruby's regular-expression engine for the
      rest of the pattern at position i: k groups are still to be matched, and
      the current one is tried at width n first, then narrower, because
      `\d{1,3}` is greedy. The captures of the first success are returned. */
  function MatchGroups(d: Dialect, s: string, i: nat, k: nat, n: nat): (r: Option<seq<string>>)
    requires i <= |s| && 1 <= k && n <= 3
    decreases k, n, 1
  {
    if n == 0 then None
    else
      var attempt := Attempt(d, s, i, k, n);
      if attempt.Some? then attempt else MatchGroups(d, s, i, k, n - 1)
  }

  /** One alternative of the search: the current group is exactly n digits
      wide, and the rest of the pattern matches after it */
  function Attempt(d: Dialect, s: string, i: nat, k: nat, n: nat): (r: Option<seq<string>>)
    requires i <= |s| && 1 <= k && 1 <= n <= 3
    decreases k, n, 0
  {
    if i + n > |s| || !DigitsAt(s, i, n) then None
    else if k == 1 then (if AtEnd(d, s, i + n) then Some([s[i..i + n]]) else None)
    else if i + n < |s| && IsSeparator(d, s[i + n]) then
      match MatchGroups(d, s, i + n + 1, k - 1, 3)
      case None => None
      case Some(rest) => Some([s[i..i + n]] + rest)
    else None
  }

  /** Where a match starts, and its four captures `$1`..`$4` */
  datatype Match = Match(start: nat, groups: seq<string>)

  /** `ip =~ pattern`: the leftmost position, from p on, where the pattern
      matches; every earlier line start from p on has no match at all */
  function Search(s: string, p: nat): (r: Option<Match>)
    requires p <= |s|
    ensures r.Some? ==> p <= r.value.start <= |s| && AtLineStart(s, r.value.start) &&
                        |r.value.groups| == 4 && GroupsAt(AsWritten, s, r.value.start, r.value.groups)
    ensures r.Some? ==> forall j :: 0 <= j < 4 ==> IsGroup(r.value.groups[j])
    decreases |s| - p
  {
    var m := if AtLineStart(s, p) then MatchGroups(AsWritten, s, p, 4, 3) else None;
    if m.Some? then MatchGroupsSound(AsWritten, s, p, 4, 3); Some(Match(p, m.value))
    else if p == |s| then None
    else Search(s, p + 1)
  }

  /** The private blocks of section 3 of RFC 1918 (10/8, 172.16/12,
      192.168/16), told apart by the first two octets */
  predicate PrivateOctets(o0: nat, o1: nat) {
    o0 == 10 || (o0 == 172 && 16 <= o1 <= 31) || (o0 == 192 && o1 == 168)
  }

  /** The two `raise` statements of `is_private?` */
  datatype IpError = NotAnAddress(ip: string) | OctetOutOfRange(ip: string)

  /** `map(&:to_i)`, the `all? { |o| o < 256 }` check, and the classification */
  function ClassifyGroups(ip: string, gs: seq<string>): Result<bool, IpError>
    requires |gs| == 4 && forall j :: 0 <= j < 4 ==> IsGroup(gs[j])
  {
    var octets := Octets(gs);
    if forall j :: 0 <= j < 4 ==> octets[j] < 256 then Ok(PrivateOctets(octets[0], octets[1]))
    else Err(OctetOutOfRange(ip))
  }

  /** `map(&:to_i)` */
  function Octets(gs: seq<string>): (octets: seq<nat>)
    requires forall j :: 0 <= j < |gs| ==> IsGroup(gs[j])
    ensures |octets| == |gs| && forall j :: 0 <= j < |gs| ==> IsGroup(gs[j]) && octets[j] == ToI(gs[j])
  {
    seq(|gs|, j requires 0 <= j < |gs| => assert IsGroup(gs[j]); ToI(gs[j]))
  }

  /** `is_private?(ip)` as written */
  function IsPrivate(ip: string): Result<bool, IpError> {
    match Search(ip, 0)
    case None => Err(NotAnAddress(ip))
    case Some(m) => ClassifyGroups(ip, m.groups)
  }

  /** `is_private?(ip)` with the pattern its authors evidently meant,
      `\A(\d{1,3})\.(\d{1,3})\.(\d{1,3})\.(\d{1,3})\z` */
  function IsPrivateIntended(ip: string): Result<bool, IpError> {
    match MatchGroups(Intended, ip, 0, 4, 3)
    case None => Err(NotAnAddress(ip))
    case Some(gs) => MatchGroupsSound(Intended, ip, 0, 4, 3); ClassifyGroups(ip, gs)
  }

  /** Groups with one separator character between each two */
  function Join(gs: seq<string>, seps: string): string
    requires |gs| >= 1 && |seps| == |gs| - 1
    decreases |gs|
  {
    if |gs| == 1 then gs[0] else gs[0] + [seps[0]] + Join(gs[1..], seps[1..])
  }

  /** The dotted-quad text of four octets, as `IPv4#to_s` writes it */
  function DottedQuad(o0: nat, o1: nat, o2: nat, o3: nat): string {
    Join([ToS(o0), ToS(o1), ToS(o2), ToS(o3)], "...")
  }

  // ---------------------------------------------------------------------
  // The matcher finds exactly the matches there are

  /** Every group of a match is one to three digits */
  lemma {:induction false} GroupsAtGroups(d: Dialect, s: string, i: nat, gs: seq<string>)
    requires i <= |s| && GroupsAt(d, s, i, gs)
    ensures forall j :: 0 <= j < |gs| ==> IsGroup(gs[j])
    decreases |gs|
  {
    if |gs| > 1 {
      GroupsAtGroups(d, s, i + |gs[0]| + 1, gs[1..]);
      assert forall j :: 1 <= j < |gs| ==> gs[j] == gs[1..][j - 1];
    }
  }

  /** What the search returns is a way for the rest of the pattern to match
      at i, with k groups */
  lemma {:induction false} MatchGroupsSound(d: Dialect, s: string, i: nat, k: nat, n: nat)
    requires i <= |s| && 1 <= k && n <= 3
    ensures var r := MatchGroups(d, s, i, k, n);
            r.Some? ==> |r.value| == k && GroupsAt(d, s, i, r.value) && forall j :: 0 <= j < k ==> IsGroup(r.value[j])
    decreases k, n, 1
  {
    if n > 0 {
      AttemptSound(d, s, i, k, n);
      if Attempt(d, s, i, k, n).None? {
        MatchGroupsSound(d, s, i, k, n - 1);
      }
    }
  }

  /** An alternative that succeeds matches its first group at width n */
  lemma {:induction false} AttemptSound(d: Dialect, s: string, i: nat, k: nat, n: nat)
    requires i <= |s| && 1 <= k && 1 <= n <= 3
    ensures var r := Attempt(d, s, i, k, n);
            r.Some? ==> i + n <= |s| && |r.value| == k && r.value[0] == s[i..i + n] &&
                        GroupsAt(d, s, i, r.value) && forall j :: 0 <= j < k ==> IsGroup(r.value[j])
    decreases k, n, 0
  {
    var r := Attempt(d, s, i, k, n);
    if r.Some? {
      var g := s[i..i + n];
      assert IsGroup(g);
      if k > 1 {
        MatchGroupsSound(d, s, i + n + 1, k - 1, 3);
        var rest := MatchGroups(d, s, i + n + 1, k - 1, 3).value;
        assert r.value == [g] + rest;
        assert r.value[1..] == rest;
      }
      GroupsAtGroups(d, s, i, r.value);
    }
  }

  /** If the rest of the pattern can match at i with first group gs[0], the
      search that starts at width n >= |gs[0]| succeeds */
  lemma {:induction false} MatchGroupsComplete(d: Dialect, s: string, i: nat, gs: seq<string>, n: nat)
    requires i <= |s| && GroupsAt(d, s, i, gs) && |gs[0]| <= n <= 3
    ensures MatchGroups(d, s, i, |gs|, n).Some?
    decreases |gs|, n
  {
    if n > |gs[0]| {
      MatchGroupsComplete(d, s, i, gs, n - 1);
    } else {
      assert DigitsAt(s, i, n) by {
        forall j | i <= j < i + n ensures IsDigit(s[j]) {
          assert s[j] == s[i..i + n][j - i];
        }
      }
      if |gs| > 1 {
        MatchGroupsComplete(d, s, i + n + 1, gs[1..], 3);
      }
      assert Attempt(d, s, i, |gs|, n).Some?;
    }
  }

  /** A search from a line start where the pattern matches stops there */
  lemma SearchAt(s: string, p: nat)
    requires p <= |s| && AtLineStart(s, p) && MatchGroups(AsWritten, s, p, 4, 3).Some?
    ensures Search(s, p) == Some(Match(p, MatchGroups(AsWritten, s, p, 4, 3).value))
  {
  }

  /** If the pattern matches at some line start q at or after p, the search
      from p finds a match */
  lemma {:induction false} SearchComplete(s: string, p: nat, q: nat, gs: seq<string>)
    requires p <= q <= |s| && AtLineStart(s, q) && |gs| == 4 && GroupsAt(AsWritten, s, q, gs)
    ensures Search(s, p).Some?
    decreases q - p
  {
    if p == q {
      SearchHere(s, p, gs);
    } else {
      SearchComplete(s, p + 1, q, gs);
      SearchStep(s, p);
    }
  }

  /** A search from a line start where the pattern can match succeeds */
  lemma SearchHere(s: string, p: nat, gs: seq<string>)
    requires p <= |s| && AtLineStart(s, p) && |gs| == 4 && GroupsAt(AsWritten, s, p, gs)
    ensures Search(s, p).Some?
  {
    MatchGroupsComplete(AsWritten, s, p, gs, 3);
    SearchAt(s, p);
  }

  /** A search that succeeds from p + 1 succeeds from p */
  lemma SearchStep(s: string, p: nat)
    requires p < |s| && Search(s, p + 1).Some?
    ensures Search(s, p).Some?
  {
  }

  /** The match found is the leftmost one: no line start before it, from p
      on, has a match */
  lemma {:induction false} SearchIsLeftmost(s: string, p: nat, q: nat)
    requires p <= q <= |s| && Search(s, p).Some? && q < Search(s, p).value.start && AtLineStart(s, q)
    ensures MatchGroups(AsWritten, s, q, 4, 3).None?
    decreases q - p
  {
    if p < q {
      SearchIsLeftmost(s, p + 1, q);
    }
  }

  // ---------------------------------------------------------------------
  // What `is_private?` answers, as written

  /** The pattern as written matches at line start p with captures gs */
  predicate MatchesAt(s: string, p: nat, gs: seq<string>) {
    p <= |s| && AtLineStart(s, p) && |gs| == 4 && GroupsAt(AsWritten, s, p, gs)
  }

  /** `is_private?` raises "not a valid ip address" exactly when no line of
      ip consists of four groups of one to three digits with one non-newline
      character between each two */
  lemma IsPrivateRejectsExactly(ip: string)
    ensures IsPrivate(ip) == Err(NotAnAddress(ip)) <==> !exists p: nat, gs: seq<string> :: MatchesAt(ip, p, gs)
  {
    var r := Search(ip, 0);
    if r.Some? {
      assert MatchesAt(ip, r.value.start, r.value.groups);
    } else if exists p: nat, gs: seq<string> :: MatchesAt(ip, p, gs) {
      var p: nat, gs: seq<string> :| MatchesAt(ip, p, gs);
      SearchComplete(ip, 0, p, gs);
    }
  }

  /** The match `=~` finds: the pattern matches at line start p, at no
      earlier line start, and gs are the captures the backtracking engine
      settles on there */
  ghost predicate FoundAt(s: string, p: nat, gs: seq<string>) {
    MatchesAt(s, p, gs) &&
    (forall q: nat, hs: seq<string> :: q < p ==> !MatchesAt(s, q, hs)) &&
    MatchGroups(AsWritten, s, p, 4, 3) == Some(gs)
  }

  /** What the search returns is the match `=~` finds */
  lemma SearchFound(ip: string)
    requires Search(ip, 0).Some?
    ensures FoundAt(ip, Search(ip, 0).value.start, Search(ip, 0).value.groups)
  {
    var m := Search(ip, 0).value;
    SearchReturns(ip, 0);
    forall q: nat, hs: seq<string> | q < m.start && MatchesAt(ip, q, hs) ensures false {
      SearchIsLeftmost(ip, 0, q);
      MatchGroupsComplete(AsWritten, ip, q, hs, 3);
    }
  }

  /** A successful search returns the captures of the engine at its start */
  lemma {:induction false} SearchReturns(s: string, p: nat)
    requires p <= |s| && Search(s, p).Some?
    ensures MatchGroups(AsWritten, s, Search(s, p).value.start, 4, 3) == Some(Search(s, p).value.groups)
    decreases |s| - p
  {
    var m := if AtLineStart(s, p) then MatchGroups(AsWritten, s, p, 4, 3) else None;
    if m.None? {
      SearchReturns(s, p + 1);
    }
  }

  /** When `is_private?` answers, the answer is the RFC 1918 test on the
      first two octets of the match it found, whose four octets are all
      below 256 */
  lemma IsPrivateAnswers(ip: string, b: bool)
    requires IsPrivate(ip) == Ok(b)
    ensures exists p: nat, gs: seq<string> ::
              FoundAt(ip, p, gs) &&
              (forall j :: 0 <= j < 4 ==> IsGroup(gs[j]) && ToI(gs[j]) < 256) &&
              b == PrivateOctets(ToI(gs[0]), ToI(gs[1]))
  {
    var m := Search(ip, 0).value;
    SearchFound(ip);
    var o := Octets(m.groups);
    assert forall j :: 0 <= j < 4 ==> IsGroup(m.groups[j]) && ToI(m.groups[j]) < 256;
  }

  /** `is_private?` raises "is not a bad ip address" only when the match it
      found has an octet of 256 or more */
  lemma IsPrivateRangeCheck(ip: string)
    requires IsPrivate(ip) == Err(OctetOutOfRange(ip))
    ensures exists p: nat, gs: seq<string> ::
              FoundAt(ip, p, gs) &&
              exists j :: 0 <= j < 4 && IsGroup(gs[j]) && ToI(gs[j]) >= 256
  {
    var m := Search(ip, 0).value;
    SearchFound(ip);
    var o := Octets(m.groups);
    var j :| 0 <= j < 4 && o[j] >= 256;
    assert IsGroup(m.groups[j]) && ToI(m.groups[j]) >= 256;
  }

  // ---------------------------------------------------------------------
  // Dotted quads, the strings the main loop passes in

  /** The pieces of a joined string: the first group, then a separator and the rest */
  lemma JoinShape(gs: seq<string>, seps: string)
    requires |gs| >= 1 && |seps| == |gs| - 1
    ensures |Join(gs, seps)| >= |gs[0]| && Join(gs, seps)[..|gs[0]|] == gs[0]
    ensures |gs| == 1 ==> Join(gs, seps) == gs[0]
    ensures |gs| > 1 ==> |Join(gs, seps)| > |gs[0]| && Join(gs, seps)[|gs[0]|] == seps[0] &&
                         Join(gs, seps)[|gs[0]| + 1..] == Join(gs[1..], seps[1..])
  {
  }

  /** A group is not tried wider than the digits that are there */
  lemma AttemptTooWide(d: Dialect, s: string, i: nat, k: nat, n: nat, w: nat)
    requires i <= |s| && 1 <= k && 1 <= n <= 3 && w < n && i + w <= |s|
    requires i + w == |s| || !IsDigit(s[i + w])
    ensures Attempt(d, s, i, k, n).None?
  {
  }

  /** The greedy search reads joined groups back exactly when no separator
      is a digit */
  lemma {:induction false} MatchJoined(d: Dialect, s: string, i: nat, gs: seq<string>, seps: string, n: nat)
    requires i <= |s| && |gs| >= 1 && |seps| == |gs| - 1 && (forall j :: 0 <= j < |gs| ==> IsGroup(gs[j]))
    requires forall j :: 0 <= j < |seps| ==> !IsDigit(seps[j]) && IsSeparator(d, seps[j])
    requires s[i..] == Join(gs, seps) && |gs[0]| <= n <= 3
    ensures MatchGroups(d, s, i, |gs|, n) == Some(gs)
    decreases |gs|, n, 1
  {
    var w := |gs[0]|;
    JoinShape(gs, seps);
    assert IsGroup(gs[0]);
    if n > w {
      if |gs| == 1 {
        assert |s| == i + w;
      } else {
        assert s[i + w] == s[i..][w] == seps[0];
      }
      AttemptTooWide(d, s, i, |gs|, n, w);
      MatchJoined(d, s, i, gs, seps, n - 1);
    } else {
      AttemptJoined(d, s, i, gs, seps);
    }
  }

  /** The alternative at the width of the first group succeeds */
  lemma {:induction false} AttemptJoined(d: Dialect, s: string, i: nat, gs: seq<string>, seps: string)
    requires i <= |s| && |gs| >= 1 && |seps| == |gs| - 1 && (forall j :: 0 <= j < |gs| ==> IsGroup(gs[j]))
    requires forall j :: 0 <= j < |seps| ==> !IsDigit(seps[j]) && IsSeparator(d, seps[j])
    requires s[i..] == Join(gs, seps)
    ensures 1 <= |gs[0]| <= 3 && Attempt(d, s, i, |gs|, |gs[0]|) == Some(gs)
    decreases |gs|, 0, 0
  {
    var w := |gs[0]|;
    JoinShape(gs, seps);
    assert IsGroup(gs[0]);
    assert s[i..i + w] == gs[0] by {
      assert s[i..i + w] == s[i..][..w];
    }
    assert DigitsAt(s, i, w) by {
      forall j | i <= j < i + w ensures IsDigit(s[j]) {
        assert s[j] == gs[0][j - i];
      }
    }
    if |gs| == 1 {
      assert |s| == i + w;
      assert [gs[0]] == gs;
    } else {
      assert s[i + w] == s[i..][w] == seps[0];
      assert s[i + w + 1..] == s[i..][w + 1..];
      forall j | 0 <= j < |gs[1..]| ensures IsGroup(gs[1..][j]) {
        assert gs[1..][j] == gs[j + 1];
      }
      MatchJoined(d, s, i + w + 1, gs[1..], seps[1..], 3);
      assert [gs[0]] + gs[1..] == gs;
    }
  }

  /** A whole string of groups and non-digit separators is read as those groups */
  lemma IsPrivateJoined(s: string, gs: seq<string>, seps: string)
    requires |gs| == 4 && IsGroup(gs[0]) && IsGroup(gs[1]) && IsGroup(gs[2]) && IsGroup(gs[3])
    requires |seps| == 3 && !IsDigit(seps[0]) && !IsDigit(seps[1]) && !IsDigit(seps[2])
    requires seps[0] != '\n' && seps[1] != '\n' && seps[2] != '\n'
    requires s == Join(gs, seps)
    ensures IsPrivate(s) == ClassifyGroups(s, gs)
    ensures seps == "..." ==> IsPrivateIntended(s) == ClassifyGroups(s, gs)
  {
    assert forall j :: 0 <= j < 4 ==> IsGroup(gs[j]);
    assert forall j :: 0 <= j < 3 ==> !IsDigit(seps[j]) && seps[j] != '\n';
    assert s[0..] == s;
    MatchJoined(AsWritten, s, 0, gs, seps, 3);
    assert Search(s, 0) == Some(Match(0, gs));
    if seps == "..." {
      MatchJoined(Intended, s, 0, gs, seps, 3);
    }
  }

  /** Both readings of the pattern classify the dotted quad of four octets
      by the RFC 1918 test on its first two */
  lemma DottedQuadClassified(o0: nat, o1: nat, o2: nat, o3: nat)
    requires o0 < 256 && o1 < 256 && o2 < 256 && o3 < 256
    ensures IsPrivate(DottedQuad(o0, o1, o2, o3)) == Ok(PrivateOctets(o0, o1))
    ensures IsPrivateIntended(DottedQuad(o0, o1, o2, o3)) == Ok(PrivateOctets(o0, o1))
  {
    var gs := [ToS(o0), ToS(o1), ToS(o2), ToS(o3)];
    IsPrivateJoined(DottedQuad(o0, o1, o2, o3), gs, "...");
  }

  /** The third and fourth octets never change the answer */
  lemma HostOctetsIgnored(o0: nat, o1: nat, o2: nat, o3: nat, o2': nat, o3': nat)
    requires o0 < 256 && o1 < 256 && o2 < 256 && o3 < 256 && o2' < 256 && o3' < 256
    ensures IsPrivate(DottedQuad(o0, o1, o2, o3)) == IsPrivate(DottedQuad(o0, o1, o2', o3'))
  {
    DottedQuadClassified(o0, o1, o2, o3);
    DottedQuadClassified(o0, o1, o2', o3');
  }

  // ---------------------------------------------------------------------
  // The intended reading

  /** With a literal dot and anchors at the ends, a string has at most one
      reading as groups */
  lemma {:induction false} IntendedGroupsUnique(s: string, i: nat, gs: seq<string>, hs: seq<string>)
    requires i <= |s| && GroupsAt(Intended, s, i, gs) && GroupsAt(Intended, s, i, hs)
    ensures gs == hs
    decreases |gs|
  {
    var w, v := |gs[0]|, |hs[0]|;
    assert w == v;
    assert gs[0] == hs[0];
    if |gs| == 1 {
      assert |hs| == 1;
    } else {
      assert |hs| > 1;
      IntendedGroupsUnique(s, i + w + 1, gs[1..], hs[1..]);
      assert gs == [gs[0]] + gs[1..];
      assert hs == [hs[0]] + hs[1..];
    }
  }

  /** Evidently intended: a string that is exactly one dotted quad of one-
      to three-digit groups is classified by its own octets, and raises
      "is not a bad ip address" exactly when one of them is 256 or more */
  lemma IntendedAcceptsDottedQuads(ip: string, gs: seq<string>)
    requires |gs| == 4 && GroupsAt(Intended, ip, 0, gs)
    ensures forall j :: 0 <= j < 4 ==> IsGroup(gs[j])
    ensures var o := Octets(gs);
            IsPrivateIntended(ip) ==
              if o[0] < 256 && o[1] < 256 && o[2] < 256 && o[3] < 256 then Ok(PrivateOctets(o[0], o[1]))
              else Err(OctetOutOfRange(ip))
  {
    GroupsAtGroups(Intended, ip, 0, gs);
    IntendedFinds(ip, gs);
    ClassifyKnown(ip, gs, Octets(gs));
  }

  /** The intended search finds the one reading there is */
  lemma IntendedFinds(ip: string, gs: seq<string>)
    requires |gs| == 4 && GroupsAt(Intended, ip, 0, gs)
    ensures MatchGroups(Intended, ip, 0, 4, 3) == Some(gs)
  {
    MatchGroupsComplete(Intended, ip, 0, gs, 3);
    MatchGroupsSound(Intended, ip, 0, 4, 3);
    IntendedGroupsUnique(ip, 0, gs, MatchGroups(Intended, ip, 0, 4, 3).value);
  }

  /** Evidently intended: "not a valid ip address" exactly when the whole
      string is not four groups of one to three digits joined by dots */
  lemma IntendedRejectsExactly(ip: string)
    ensures IsPrivateIntended(ip) == Err(NotAnAddress(ip)) <==>
            !exists gs: seq<string> :: |gs| == 4 && GroupsAt(Intended, ip, 0, gs)
  {
    var r := MatchGroups(Intended, ip, 0, 4, 3);
    MatchGroupsSound(Intended, ip, 0, 4, 3);
    if r.Some? {
      assert IsPrivateIntended(ip) == ClassifyGroups(ip, r.value);
      assert |r.value| == 4 && GroupsAt(Intended, ip, 0, r.value);
    } else if exists gs: seq<string> :: |gs| == 4 && GroupsAt(Intended, ip, 0, gs) {
      var gs: seq<string> :| |gs| == 4 && GroupsAt(Intended, ip, 0, gs);
      MatchGroupsComplete(Intended, ip, 0, gs, 3);
    }
  }

  // ---------------------------------------------------------------------
  // Where the pattern as written departs from the intended one

  /** No match starts at a character that is not a digit */
  lemma NoMatchAtNonDigit(d: Dialect, s: string, i: nat, k: nat, n: nat)
    requires i < |s| && 1 <= k && n <= 3 && !IsDigit(s[i])
    ensures MatchGroups(d, s, i, k, n).None?
  {
  }

  /** Under the intended reading the first group must be followed by a dot */
  lemma IntendedNeedsDot(s: string, k: nat, n: nat)
    requires 4 <= |s| && 2 <= k && n <= 3 && s[1] != '.' && s[2] != '.' && s[3] != '.'
    ensures MatchGroups(Intended, s, 0, k, n).None?
  {
  }

  /** The classification of four groups whose values are known */
  lemma ClassifyKnown(ip: string, gs: seq<string>, o: seq<nat>)
    requires |gs| == 4 && |o| == 4
    requires IsGroup(gs[0]) && IsGroup(gs[1]) && IsGroup(gs[2]) && IsGroup(gs[3])
    requires ToI(gs[0]) == o[0] && ToI(gs[1]) == o[1] && ToI(gs[2]) == o[2] && ToI(gs[3]) == o[3]
    ensures ClassifyGroups(ip, gs) ==
      if o[0] < 256 && o[1] < 256 && o[2] < 256 && o[3] < 256 then Ok(PrivateOctets(o[0], o[1]))
      else Err(OctetOutOfRange(ip))
  {
  }

  /** `to_i` on the digit groups of the examples below */
  lemma Numerals()
    ensures ToI("0") == 0 && ToI("1") == 1 && ToI("2") == 2 && ToI("10") == 10 && ToI("11") == 11
    ensures ToI("001") == 1 && ToI("010") == 10 && ToI("300") == 300
  {
  }

  /** Any non-newline character separates groups */
  lemma AnySeparatorAccepted(s: string)
    requires s == "10x0x0x1"
    ensures IsPrivate(s) == Ok(true)
    ensures IsPrivateIntended(s) == Err(NotAnAddress(s))
  {
    var gs := ["10", "0", "0", "1"];
    assert s == Join(gs, "xxx");
    IsPrivateJoined(s, gs, "xxx");
    Numerals();
    ClassifyKnown(s, gs, [10, 0, 0, 1]);
    IntendedNeedsDot(s, 4, 3);
  }

  /** The search passes over positions where no match starts */
  lemma {:induction false} SearchSkips(s: string, p: nat, q: nat)
    requires p <= q <= |s|
    requires forall r :: p <= r < q ==> !AtLineStart(s, r) || MatchGroups(AsWritten, s, r, 4, 3).None?
    ensures Search(s, p) == Search(s, q)
    decreases q - p
  {
    if p < q {
      SearchSkips(s, p + 1, q);
      SearchPasses(s, p);
    }
  }

  /** The search moves on from a position where no match starts */
  lemma SearchPasses(s: string, p: nat)
    requires p < |s| && (!AtLineStart(s, p) || MatchGroups(AsWritten, s, p, 4, 3).None?)
    ensures Search(s, p) == Search(s, p + 1)
  {
  }

  /** The second line of "host\n10.0.0.1" matches */
  lemma SecondLineMatches(s: string)
    requires s == "host\n10.0.0.1"
    ensures Search(s, 5) == Some(Match(5, ["10", "0", "0", "1"]))
  {
    var gs := ["10", "0", "0", "1"];
    assert s[5..] == Join(gs, "...");
    MatchJoined(AsWritten, s, 5, gs, "...", 3);
    assert AtLineStart(s, 5);
  }

  /** The first line of "host\n10.0.0.1" does not */
  lemma FirstLineSkipped(s: string)
    requires s == "host\n10.0.0.1"
    ensures Search(s, 0) == Search(s, 5)
  {
    forall r | 0 <= r < 5 ensures !AtLineStart(s, r) || MatchGroups(AsWritten, s, r, 4, 3).None? {
      if r == 0 {
        NoMatchAtNonDigit(AsWritten, s, 0, 4, 3);
      } else {
        assert s[r - 1] != '\n';
      }
    }
    SearchSkips(s, 0, 5);
  }

  /** One line of a multi-line string is enough */
  lemma AnyLineAccepted(s: string)
    requires s == "host\n10.0.0.1"
    ensures IsPrivate(s) == Ok(true)
    ensures IsPrivateIntended(s) == Err(NotAnAddress(s))
  {
    var gs := ["10", "0", "0", "1"];
    SecondLineMatches(s);
    FirstLineSkipped(s);
    Numerals();
    ClassifyKnown(s, gs, [10, 0, 0, 1]);
    NoMatchAtNonDigit(Intended, s, 0, 4, 3);
  }

  /** k groups and the separators between them take at least 2k - 1 characters */
  lemma {:induction false} GroupsAtLength(d: Dialect, s: string, i: nat, gs: seq<string>)
    requires i <= |s| && GroupsAt(d, s, i, gs)
    ensures i + 2 * |gs| - 1 <= |s|
    decreases |gs|
  {
    if |gs| > 1 {
      GroupsAtLength(d, s, i + |gs[0]| + 1, gs[1..]);
    }
  }

  /** The search fails where too few characters are left for k groups */
  lemma TooShort(d: Dialect, s: string, i: nat, k: nat, n: nat)
    requires i <= |s| && 1 <= k && n <= 3 && |s| < i + 2 * k - 1
    ensures MatchGroups(d, s, i, k, n).None?
  {
    var r := MatchGroups(d, s, i, k, n);
    MatchGroupsSound(d, s, i, k, n);
    if r.Some? {
      GroupsAtLength(d, s, i, r.value);
      assert false;
    }
  }

  /** The backtracking on "3001112222" after the greedy first group "300"
      and the separator '1' */
  lemma GreedyTail(s: string)
    requires s == "3001112222"
    ensures MatchGroups(AsWritten, s, 4, 3, 3) == Some(["11", "2", "2"])
  {
    assert s[9..] == Join(["2"], "");
    MatchJoined(AsWritten, s, 9, ["2"], "", 3);
    TooShort(AsWritten, s, 10, 1, 3);
    TooShort(AsWritten, s, 8, 2, 3);
    assert s[7..8] == "2" && s[4..6] == "11";
    assert DigitsAt(s, 7, 1) && IsSeparator(AsWritten, s[8]);
    assert [s[7..8]] + ["2"] == ["2", "2"];
    assert MatchGroups(AsWritten, s, 7, 2, 3) == Some(["2", "2"]);
    assert DigitsAt(s, 4, 2) && IsSeparator(AsWritten, s[6]);
    assert [s[4..6]] + ["2", "2"] == ["11", "2", "2"];
  }

  /** "3001112222" read as 3, 0, 11 and 222, each digit in between standing as a separator */
  lemma LaxReading(s: string)
    requires s == "3001112222"
    ensures GroupsAt(AsWritten, s, 0, ["3", "0", "11", "222"])
  {
  }

  /** The greedy reading of "3001112222": the first group takes three digits */
  lemma GreedyMatch(s: string)
    requires s == "3001112222"
    ensures MatchGroups(AsWritten, s, 0, 4, 3) == Some(["300", "11", "2", "2"])
  {
    GreedyTail(s);
    assert s[0..3] == "300";
    assert DigitsAt(s, 0, 3) && IsSeparator(AsWritten, s[3]);
    assert [s[0..3]] + ["11", "2", "2"] == ["300", "11", "2", "2"];
  }

  /** A digit can stand as a separator, so a string with a reading whose
      octets are all below 256 may still be read greedily as one whose first
      octet is 300, and rejected */
  lemma GreedyReadingRejected(s: string)
    requires s == "3001112222"
    ensures GroupsAt(AsWritten, s, 0, ["3", "0", "11", "222"])
    ensures IsPrivate(s) == Err(OctetOutOfRange(s))
    ensures IsPrivateIntended(s) == Err(NotAnAddress(s))
  {
    LaxReading(s);
    GreedyMatch(s);
    assert Search(s, 0) == Some(Match(0, ["300", "11", "2", "2"]));
    Numerals();
    ClassifyKnown(s, ["300", "11", "2", "2"], [300, 11, 2, 2]);
    IntendedNeedsDot(s, 4, 3);
  }

  /** Leading zeros are read by `to_i` as decimal */
  lemma LeadingZerosAccepted(s: string)
    requires s == "010.001.0.0"
    ensures IsPrivate(s) == Ok(true)
    ensures IsPrivateIntended(s) == Ok(true)
  {
    var gs := ["010", "001", "0", "0"];
    assert s == Join(gs, "...");
    IsPrivateJoined(s, gs, "...");
    Numerals();
    ClassifyKnown(s, gs, [10, 1, 0, 0]);
  }
}
