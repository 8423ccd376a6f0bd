/**
 * The counting run: every input line names a network; each network is
 * classified by its network address, recorded with its host count and
 * pushed onto the internal or the external host list; the lists are then
 * summarised into network counts and address totals. A line that does
 * not parse ends the run with an error and no summary.
 */
module IpCount {
  import opened Results
  import opened IpAddress
  import opened Network

  /** One entry of a host list: the network and its host count. */
  datatype HostRecord = HostRecord(network: Cidr, size: int)

  /** The two host lists built by the loop, in input order. */
  datatype Hosts = Hosts(internal: seq<HostRecord>, external: seq<HostRecord>)

  /** Why a run stopped. */
  datatype RunError = ParseFailed(line: string, reason: string)

  /** The network parser the run relies on; it is supplied from outside. */
  type Parser = string -> Result<Cidr, string>

  /** One processed line: its record and whether it goes to the internal list. */
  datatype Entry = Entry(record: HostRecord, isPrivate: bool)

  function Record(c: Cidr): HostRecord {
    HostRecord(c, Size(c))
  }

  /**
   * `is_private?` applied to the text of a network address. It never
   * fails, and it answers whether the address lies in an RFC 1918 block.
   */
  method ClassifyNetwork(c: Cidr) returns (r: Result<bool, IpError>)
    ensures r == Ok(InRfc1918(NetworkAddress(c)))
  {
    AddressTextClassified(c);
    r := IsPrivate(AddressText(c));
  }

  /**
   * What the loop body does with one line, with the classifier's answer
   * as the contract of `ClassifyNetwork` states it.
   */
  function Step(parse: Parser, line: string): Result<Entry, RunError> {
    match parse(line)
    case Err(reason) => Err(ParseFailed(line, reason))
    case Ok(c) => Ok(Entry(Record(c), IsInternal(Record(c))))
  }

  /** The host lists after the loop has run over `lines`; the first error stops it. */
  function Process(parse: Parser, lines: seq<string>): Result<Hosts, RunError> {
    if lines == [] then Ok(Hosts([], []))
    else
      match Process(parse, lines[..|lines| - 1])
      case Err(e) => Err(e)
      case Ok(h) =>
        match Step(parse, lines[|lines| - 1])
        case Err(e) => Err(e)
        case Ok(entry) =>
          if entry.isPrivate then Ok(Hosts(h.internal + [entry.record], h.external))
          else Ok(Hosts(h.internal, h.external + [entry.record]))
  }

  // ---------------------------------------------------------------------
  // Reference description of the run
  // ---------------------------------------------------------------------

  predicate AllParse(parse: Parser, lines: seq<string>) {
    forall i :: 0 <= i < |lines| ==> parse(lines[i]).Ok?
  }

  /** Line `i` is the first one the parser rejects. */
  predicate FirstFailure(parse: Parser, lines: seq<string>, i: nat) {
    i < |lines| && parse(lines[i]).Err? && forall j :: 0 <= j < i ==> parse(lines[j]).Ok?
  }

  function Networks(parse: Parser, lines: seq<string>): (nets: seq<Cidr>)
    requires AllParse(parse, lines)
    ensures |nets| == |lines| && forall i :: 0 <= i < |lines| ==> parse(lines[i]) == Ok(nets[i])
  {
    seq(|lines|, i requires 0 <= i < |lines| => parse(lines[i]).value)
  }

  function Records(nets: seq<Cidr>): (rs: seq<HostRecord>)
    ensures |rs| == |nets| && forall i :: 0 <= i < |nets| ==> rs[i] == Record(nets[i])
  {
    seq(|nets|, i requires 0 <= i < |nets| => Record(nets[i]))
  }

  /** A record is internal when its network address lies in an RFC 1918 block. */
  predicate IsInternal(r: HostRecord) {
    InRfc1918(NetworkAddress(r.network))
  }

  /** The records of one class, in their original order. */
  function Select(rs: seq<HostRecord>, internal: bool): seq<HostRecord> {
    if rs == [] then []
    else
      Select(rs[..|rs| - 1], internal) +
      (if IsInternal(rs[|rs| - 1]) == internal then [rs[|rs| - 1]] else [])
  }

  /** The host lists a run over well-formed lines must produce. */
  function Expected(parse: Parser, lines: seq<string>): Hosts
    requires AllParse(parse, lines)
  {
    var rs := Records(Networks(parse, lines));
    Hosts(Select(rs, true), Select(rs, false))
  }

  // ---------------------------------------------------------------------
  // The loop
  // ---------------------------------------------------------------------

  lemma {:induction false} ErrorPersists(parse: Parser, lines: seq<string>, i: nat)
    requires i <= |lines| && Process(parse, lines[..i]).Err?
    ensures Process(parse, lines) == Process(parse, lines[..i])
  {
    if i < |lines| {
      var n := |lines|;
      assert lines[..n][..n - 1] == lines[..n - 1];
      assert lines[..n - 1][..i] == lines[..i];
      ErrorPersists(parse, lines[..n - 1], i);
    } else {
      assert lines[..i] == lines;
    }
  }

  /** On well-formed lines the loop yields exactly the expected lists. */
  lemma {:induction false} ProcessAccepts(parse: Parser, lines: seq<string>)
    requires AllParse(parse, lines)
    ensures Process(parse, lines) == Ok(Expected(parse, lines))
  {
    if lines != [] {
      var n := |lines|;
      var prefix := lines[..n - 1];
      assert AllParse(parse, prefix);
      ProcessAccepts(parse, prefix);
      var rs := Records(Networks(parse, lines));
      var ps := Records(Networks(parse, prefix));
      assert rs[..n - 1] == ps;
      var last := rs[n - 1];
      assert Select(rs, true) == Select(ps, true) + (if IsInternal(last) then [last] else []);
      assert Select(rs, false) == Select(ps, false) + (if IsInternal(last) then [] else [last]);
      assert Step(parse, lines[n - 1]) == Ok(Entry(last, IsInternal(last)));
      assert Process(parse, prefix) == Ok(Hosts(Select(ps, true), Select(ps, false)));
      assert Expected(parse, lines) == Hosts(Select(rs, true), Select(rs, false));
      if IsInternal(last) {
        assert Process(parse, lines) == Ok(Hosts(Select(ps, true) + [last], Select(ps, false)));
        assert Select(ps, false) + [] == Select(ps, false);
      } else {
        assert Process(parse, lines) == Ok(Hosts(Select(ps, true), Select(ps, false) + [last]));
        assert Select(ps, true) + [] == Select(ps, true);
      }
    }
  }

  /** The loop stops at the first line the parser rejects, reporting that line. */
  lemma {:induction false} ProcessRejects(parse: Parser, lines: seq<string>, i: nat)
    requires FirstFailure(parse, lines, i)
    ensures Process(parse, lines) == Err(ParseFailed(lines[i], parse(lines[i]).error))
  {
    var before := lines[..i];
    assert AllParse(parse, before);
    ProcessAccepts(parse, before);
    assert lines[..i + 1][..i] == before;
    assert Process(parse, lines[..i + 1]) == Err(ParseFailed(lines[i], parse(lines[i]).error));
    ErrorPersists(parse, lines, i + 1);
  }

  /** Some line of a rejected input is the first that fails to parse. */
  lemma {:induction false} FirstFailureExists(parse: Parser, lines: seq<string>) returns (i: nat)
    requires !AllParse(parse, lines)
    ensures FirstFailure(parse, lines, i)
  {
    var n := |lines|;
    var prefix := lines[..n - 1];
    if AllParse(parse, prefix) {
      i := n - 1;
    } else {
      i := FirstFailureExists(parse, prefix);
    }
  }

  /**
   * The loop of the counting run. It parses each line, classifies the
   * network by its network address and pushes the record onto one of the
   * two lists; the first failure ends it.
   */
  method Partition(parse: Parser, lines: seq<string>) returns (r: Result<Hosts, RunError>)
    ensures r == Process(parse, lines)
    ensures r.Ok? <==> AllParse(parse, lines)
    ensures r.Ok? ==> r.value == Expected(parse, lines)
    ensures r.Err? ==> exists i: nat :: FirstFailure(parse, lines, i) && r.error == ParseFailed(lines[i], parse(lines[i]).error)
  {
    var internal: seq<HostRecord> := [];
    var external: seq<HostRecord> := [];
    for i := 0 to |lines|
      invariant Process(parse, lines[..i]) == Ok(Hosts(internal, external))
    {
      var line := lines[i];
      assert lines[..i + 1][..i] == lines[..i];
      var network := parse(line);
      if network.Err? {
        r := Err(ParseFailed(line, network.error));
        ErrorPersists(parse, lines, i + 1);
        Outcome(parse, lines);
        return;
      }
      var c := network.value;
      // the classifier cannot fail on the text of a network address
      var priv := ClassifyNetwork(c);
      var networkType := if priv.value then "private" else "public";
      var d := HostRecord(c, Len(c) - 2);
      if networkType == "private" {
        internal := internal + [d];
      }
      if networkType == "public" {
        external := external + [d];
      }
    }
    assert lines[..|lines|] == lines;
    r := Ok(Hosts(internal, external));
    Outcome(parse, lines);
  }

  /** How a run over `lines` ends, in terms of the reference description. */
  lemma Outcome(parse: Parser, lines: seq<string>)
    ensures Process(parse, lines).Ok? <==> AllParse(parse, lines)
    ensures AllParse(parse, lines) ==> Process(parse, lines) == Ok(Expected(parse, lines))
    ensures !AllParse(parse, lines) ==> exists i: nat ::
      FirstFailure(parse, lines, i) && Process(parse, lines) == Err(ParseFailed(lines[i], parse(lines[i]).error))
  {
    if AllParse(parse, lines) {
      ProcessAccepts(parse, lines);
    } else {
      var i := FirstFailureExists(parse, lines);
      ProcessRejects(parse, lines, i);
    }
  }

  // ---------------------------------------------------------------------
  // Properties of the partition
  // ---------------------------------------------------------------------

  /** Selecting from a concatenation keeps the order of both parts. */
  lemma {:induction false} SelectAppend(a: seq<HostRecord>, b: seq<HostRecord>, internal: bool)
    ensures Select(a + b, internal) == Select(a, internal) + Select(b, internal)
  {
    if b != [] {
      var n := |b|;
      assert (a + b)[..|a + b| - 1] == a + b[..n - 1];
      SelectAppend(a, b[..n - 1], internal);
    } else {
      assert a + b == a;
    }
  }

  /** Each record lands in exactly one of the two lists, in the class it belongs to. */
  lemma SelectPartition(rs: seq<HostRecord>)
    ensures |Select(rs, true)| + |Select(rs, false)| == |rs|
    ensures multiset(Select(rs, true)) + multiset(Select(rs, false)) == multiset(rs)
  {
    var t, f := multiset(Select(rs, true)), multiset(Select(rs, false));
    forall x ensures (t + f)[x] == multiset(rs)[x] {
      SelectCount(rs, true, x);
      SelectCount(rs, false, x);
    }
    assert t + f == multiset(rs);
    assert |t + f| == |t| + |f|;
  }

  /** Every record in a class list belongs to that class. */
  lemma {:induction false} SelectClassified(rs: seq<HostRecord>, internal: bool)
    ensures forall x :: x in Select(rs, internal) ==> IsInternal(x) == internal
  {
    if rs != [] {
      SelectClassified(rs[..|rs| - 1], internal);
    }
  }

  /** How often a record occurs in the list of its class. */
  lemma {:induction false} SelectCount(rs: seq<HostRecord>, internal: bool, x: HostRecord)
    ensures multiset(Select(rs, internal))[x] == if IsInternal(x) == internal then multiset(rs)[x] else 0
  {
    if rs != [] {
      var n := |rs|;
      SelectCount(rs[..n - 1], internal, x);
      assert rs == rs[..n - 1] + [rs[n - 1]];
    }
  }

  // ---------------------------------------------------------------------
  // The summary
  // ---------------------------------------------------------------------

  /** The sum of the host counts of a list. */
  function SumSizes(hs: seq<HostRecord>): int {
    if hs == [] then 0 else SumSizes(hs[..|hs| - 1]) + hs[|hs| - 1].size
  }

  /** The accumulator loop that totals the host counts of one list. */
  method TotalAddresses(hosts: seq<HostRecord>) returns (total: int)
    ensures total == SumSizes(hosts)
  {
    total := 0;
    for i := 0 to |hosts|
      invariant total == SumSizes(hosts[..i])
    {
      assert hosts[..i + 1][..i] == hosts[..i];
      total := total + hosts[i].size;
    }
    assert hosts[..|hosts|] == hosts;
  }

  /** The figures the run reports: networks and addresses per class and in total. */
  datatype Summary = Summary(
    internalNetworks: nat, internalAddresses: int,
    externalNetworks: nat, externalAddresses: int,
    allNetworks: nat, allAddresses: int)

  /** The summary of two host lists. */
  function Tally(h: Hosts): Summary {
    Summary(
      |h.internal|, SumSizes(h.internal),
      |h.external|, SumSizes(h.external),
      |h.internal| + |h.external|, SumSizes(h.internal) + SumSizes(h.external))
  }

  /** The summary step: count each list, total it, and add up both. */
  method Summarize(h: Hosts) returns (s: Summary)
    ensures s == Tally(h)
  {
    var internalNetworks := |h.internal|;
    var totalInternal := TotalAddresses(h.internal);
    var externalNetworks := |h.external|;
    var totalExternal := TotalAddresses(h.external);
    var allNetworks := internalNetworks + externalNetworks;
    var allHosts := totalInternal + totalExternal;
    s := Summary(internalNetworks, totalInternal, externalNetworks, totalExternal, allNetworks, allHosts);
  }

  lemma {:induction false} SumSizesAppend(a: seq<HostRecord>, b: seq<HostRecord>)
    ensures SumSizes(a + b) == SumSizes(a) + SumSizes(b)
  {
    if b != [] {
      var n := |b|;
      assert (a + b)[..|a + b| - 1] == a + b[..n - 1];
      SumSizesAppend(a, b[..n - 1]);
    } else {
      assert a + b == a;
    }
  }

  /** The internal and external totals add up to the total over all records. */
  lemma {:induction false} SumSplit(rs: seq<HostRecord>)
    ensures SumSizes(Select(rs, true)) + SumSizes(Select(rs, false)) == SumSizes(rs)
  {
    if rs != [] {
      var n := |rs|;
      var last := rs[n - 1];
      var ps := rs[..n - 1];
      SumSplit(ps);
      if IsInternal(last) {
        assert Select(rs, true) == Select(ps, true) + [last];
        SumSizesAppend(Select(ps, true), [last]);
        assert Select(rs, false) == Select(ps, false) + [];
        assert Select(ps, false) + [] == Select(ps, false);
      } else {
        assert Select(rs, false) == Select(ps, false) + [last];
        SumSizesAppend(Select(ps, false), [last]);
        assert Select(rs, true) == Select(ps, true) + [];
        assert Select(ps, true) + [] == Select(ps, true);
      }
    }
  }

  /** Taking one record out of the middle of a list takes its count out of the total. */
  lemma {:induction false} SumSizesRemove(b: seq<HostRecord>, k: nat)
    requires k < |b|
    ensures SumSizes(b) == SumSizes(b[..k] + b[k + 1..]) + b[k].size
  {
    var n := |b|;
    if k == n - 1 {
      assert b[..k] + b[k + 1..] == b[..n - 1];
    } else {
      var c := b[..n - 1];
      SumSizesRemove(c, k);
      var rest := b[..k] + b[k + 1..];
      assert rest[..|rest| - 1] == c[..k] + c[k + 1..];
      assert rest[|rest| - 1] == b[n - 1];
    }
  }

  /** Dropping the element at `k` drops one occurrence of it from the multiset. */
  lemma MultisetRemove<T>(b: seq<T>, k: nat)
    requires k < |b|
    ensures multiset(b[..k] + b[k + 1..]) == multiset(b) - multiset{b[k]}
  {
    assert b == b[..k] + [b[k]] + b[k + 1..];
    assert multiset(b) == multiset(b[..k]) + multiset{b[k]} + multiset(b[k + 1..]);
  }

  /** The total does not depend on the order of the records. */
  lemma {:induction false} SumSizesPermutation(a: seq<HostRecord>, b: seq<HostRecord>)
    requires multiset(a) == multiset(b)
    ensures SumSizes(a) == SumSizes(b)
  {
    if a != [] {
      var n := |a|;
      var last := a[n - 1];
      assert last in multiset(a);
      var k :| 0 <= k < |b| && b[k] == last;
      MultisetRemove(a, n - 1);
      MultisetRemove(b, k);
      assert a[..n - 1] + a[n..] == a[..n - 1];
      SumSizesPermutation(a[..n - 1], b[..k] + b[k + 1..]);
      SumSizesRemove(b, k);
    } else {
      assert |multiset(b)| == 0;
    }
  }

  /** Reordering the records reorders each class list the same way. */
  lemma SelectPermutation(a: seq<HostRecord>, b: seq<HostRecord>, internal: bool)
    requires multiset(a) == multiset(b)
    ensures multiset(Select(a, internal)) == multiset(Select(b, internal))
  {
    forall x ensures multiset(Select(a, internal))[x] == multiset(Select(b, internal))[x] {
      SelectCount(a, internal, x);
      SelectCount(b, internal, x);
    }
  }

  /** The totals of the class lists do not depend on the order of the records. */
  lemma TallyOrderIndependent(a: seq<HostRecord>, b: seq<HostRecord>)
    requires multiset(a) == multiset(b)
    ensures Tally(Hosts(Select(a, true), Select(a, false))) == Tally(Hosts(Select(b, true), Select(b, false)))
  {
    var at, af, bt, bf := Select(a, true), Select(a, false), Select(b, true), Select(b, false);
    SelectPermutation(a, b, true);
    SelectPermutation(a, b, false);
    SumSizesPermutation(at, bt);
    SumSizesPermutation(af, bf);
    SameLength(at, bt);
    SameLength(af, bf);
  }

  lemma SameLength<T>(a: seq<T>, b: seq<T>)
    requires multiset(a) == multiset(b)
    ensures |a| == |b|
  {
    assert |a| == |multiset(a)|;
    assert |b| == |multiset(b)|;
  }

  /** Reordered lines all parse when the original ones do. */
  lemma AllParsePermutation(parse: Parser, a: seq<string>, b: seq<string>)
    requires multiset(a) == multiset(b) && AllParse(parse, a)
    ensures AllParse(parse, b)
  {
    forall i | 0 <= i < |b| ensures parse(b[i]).Ok? {
      assert b[i] in multiset(a);
      var j :| 0 <= j < |a| && a[j] == b[i];
    }
  }

  /** Dropping line k drops its record from the records of the lines. */
  lemma RecordsRemove(parse: Parser, b: seq<string>, k: nat)
    requires AllParse(parse, b) && k < |b|
    ensures AllParse(parse, b[..k] + b[k + 1..])
    ensures multiset(Records(Networks(parse, b))) ==
            multiset(Records(Networks(parse, b[..k] + b[k + 1..]))) + multiset{Record(parse(b[k]).value)}
  {
    var c := b[..k] + b[k + 1..];
    assert forall i :: 0 <= i < |c| ==> c[i] == if i < k then b[i] else b[i + 1];
    var rs := Records(Networks(parse, b));
    assert Records(Networks(parse, c)) == rs[..k] + rs[k + 1..];
    MultisetRemove(rs, k);
  }

  /** Reordering the lines reorders their records the same way. */
  lemma {:induction false} RecordsPermutation(parse: Parser, a: seq<string>, b: seq<string>)
    requires multiset(a) == multiset(b) && AllParse(parse, a)
    ensures AllParse(parse, b)
    ensures multiset(Records(Networks(parse, a))) == multiset(Records(Networks(parse, b)))
    decreases |a|
  {
    AllParsePermutation(parse, a, b);
    if a == [] {
      SameLength(a, b);
    } else {
      var n := |a|;
      var x := a[n - 1];
      assert x in multiset(b);
      var k :| 0 <= k < |b| && b[k] == x;
      var a', b' := a[..n - 1] + a[n..], b[..k] + b[k + 1..];
      MultisetRemove(a, n - 1);
      MultisetRemove(b, k);
      assert multiset(a') == multiset(b');
      RecordsRemove(parse, a, n - 1);
      RecordsRemove(parse, b, k);
      RecordsPermutation(parse, a', b');
      var ra, rb := Records(Networks(parse, a')), Records(Networks(parse, b'));
      assert multiset(Records(Networks(parse, a))) == multiset(ra) + multiset{Record(parse(x).value)};
      assert multiset(Records(Networks(parse, b))) == multiset(rb) + multiset{Record(parse(x).value)};
    }
  }

  /** The summary of a run does not depend on the order of its input lines. */
  lemma RunOrderIndependent(parse: Parser, a: seq<string>, b: seq<string>)
    requires multiset(a) == multiset(b) && AllParse(parse, a)
    ensures AllParse(parse, b)
    ensures Tally(Expected(parse, a)) == Tally(Expected(parse, b))
  {
    RecordsPermutation(parse, a, b);
    TallyOrderIndependent(Records(Networks(parse, a)), Records(Networks(parse, b)));
  }

  /** A total over host records lies between -1 and 2^32 - 2 per record. */
  lemma {:induction false} SumSizesBounds(hs: seq<HostRecord>)
    requires forall i :: 0 <= i < |hs| ==> -1 <= hs[i].size <= 0xFFFF_FFFE
    ensures -|hs| <= SumSizes(hs) <= |hs| * 0xFFFF_FFFE
  {
    if hs != [] {
      SumSizesBounds(hs[..|hs| - 1]);
    }
  }

  /**
   * The summary of a run over well-formed lines: every line is one
   * network, the totals of the two classes add up to the total over all
   * records, and that total is bounded by the number of lines.
   */
  lemma RunTotals(parse: Parser, lines: seq<string>)
    requires AllParse(parse, lines)
    ensures var t := Tally(Expected(parse, lines)); var rs := Records(Networks(parse, lines));
      t.allNetworks == |lines| && t.internalNetworks + t.externalNetworks == |lines| &&
      t.allAddresses == SumSizes(rs) && t.internalAddresses + t.externalAddresses == t.allAddresses &&
      -|lines| <= t.allAddresses <= |lines| * 0xFFFF_FFFE
  {
    var rs := Records(Networks(parse, lines));
    SelectPartition(rs);
    SumSplit(rs);
    forall i | 0 <= i < |rs| ensures -1 <= rs[i].size <= 0xFFFF_FFFE {
      SizeByPrefix(rs[i].network);
    }
    SumSizesBounds(rs);
  }

  /**
   * The whole counting run: the loop, then the summary. A failure in the
   * loop ends the run with the error and no totals.
   */
  method Run(parse: Parser, lines: seq<string>) returns (r: Result<Summary, RunError>)
    ensures r.Ok? <==> AllParse(parse, lines)
    ensures r.Ok? ==> r.value == Tally(Expected(parse, lines))
    ensures r.Ok? ==> r.value.allNetworks == |lines|
    ensures r.Ok? ==> r.value.allAddresses == SumSizes(Records(Networks(parse, lines)))
    ensures r.Err? ==> exists i: nat ::
      FirstFailure(parse, lines, i) && r.error == ParseFailed(lines[i], parse(lines[i]).error)
  {
    var hosts := Partition(parse, lines);
    if hosts.Err? {
      return Err(hosts.error);
    }
    var s := Summarize(hosts.value);
    RunTotals(parse, lines);
    return Ok(s);
  }
}
