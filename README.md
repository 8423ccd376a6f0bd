# ip_count — a Dafny model

`ip_count.rb` reads a file that holds one IPv4 network per line in CIDR
notation (`a.b.c.d/p`). It parses each line and takes the network address
of the block. It classifies that address as private (an RFC 1918 block) or
public with `is_private?`, and records the network with its host count
`len - 2`. Each record goes onto the internal or the external host list.
At the end it reports, for each class and for both together, how many
networks there were and how many host addresses they hold. The first line
that does not parse raises an exception, and the run ends without a
summary.

The model has five modules:

- `Results` (`results.dfy`): the `Option` and `Result` wrappers.
- `Decimal` (`decimal.dfy`): `String#to_i` on digit strings (`ToI`) and the
  decimal rendering of a number (`ToS`).
- `IpAddress` (`ip_address.dfy`): `is_private?`.
  - The pattern `^(\d{1,3}).(\d{1,3}).(\d{1,3}).(\d{1,3})$` is modelled as
    Ruby reads it. The unescaped `.` accepts any character but a newline.
    `^` and `$` match at line boundaries. `\d{1,3}` is greedy and
    backtracks from width 3 down to 1. The search returns the leftmost
    match.
  - `IsPrivate` is the method as written. `IsPrivateIntended` reads the
    same pattern with a literal dot, anchored at both ends of the string
    (see "## Findings").
- `Network` (`network.dfy`): what the loop uses of a parsed network.
  - The block length `Len` is `2^(32 - p)`.
  - The network address has the host bits cleared.
  - `AddressText` is its dotted-quad text.
  - `InRfc1918` gives the three private ranges as address intervals.
  - `Size` is the host count `Len - 2`.
- `IpCount` (`ip_count.dfy`): the run.
  - `Partition` is the per-line loop. It is proved equal to the
    reference `Process`, and on well-formed input to `Expected`, the
    order-preserving split of the records by class.
  - `TotalAddresses` is the accumulator loop. `Summarize` builds the
    counts and totals.
  - `Run` chains the loop and the summary.

The network parser (`NetAddr::IPv4Net.parse`) is a library call. It is a
parameter of the model of type `string -> Result<Cidr, string>`: a
function that yields either a network (an address below 2^32 and a prefix
length from 0 to 32) or an error text.

The model follows `ip_count.rb` as written:

- Every line goes to the parser as read, including its line terminator.
  Blank lines are not skipped; a blank line fails to parse and ends the run.
- The host count is `len - 2` for every prefix length. A /31 counts 0 hosts
  and a /32 counts -1 (`SizeByPrefix`).

## Model

| member | source | states |
|---|---|---|
| Decimal.ToS | ip_count.rb:101 | the decimal text of a number has one to three digits below 1000 (one below 10), and `to_i` reads the number back from it |
| IpAddress.MatchGroupsSound | ip_count.rb:48 | whatever the backtracking search returns is one way for the rest of the pattern to match: k groups of one to three digits, one separator between each two, and the end anchor after the last |
| IpAddress.AttemptSound | ip_count.rb:48 | an alternative that succeeds captures exactly the n characters at i as its first group, and the rest of what it returns matches the pattern |
| IpAddress.MatchGroupsComplete | ip_count.rb:48 | if the rest of the pattern can match at i with first group gs[0], the greedy search that starts at any width from \|gs[0]\| to 3 finds a match |
| IpAddress.Search | ip_count.rb:48 | `=~` returns a match that starts at a line start at or after p, with four groups that match the pattern there |
| IpAddress.SearchComplete | ip_count.rb:48 | the search from p succeeds whenever the pattern can match at some line start at or after p |
| IpAddress.SearchIsLeftmost | ip_count.rb:48 | no line start before the match the search returns has a match |
| IpAddress.SearchSkips | ip_count.rb:48 | the search passes over positions where no match starts, and gives the same answer as from the first position after them |
| IpAddress.IsPrivateRejectsExactly | ip_count.rb:48-50 | `is_private?` raises "not a valid ip address" if and only if no line of the input is four groups of one to three digits separated by single non-newline characters |
| IpAddress.SearchReturns | ip_count.rb:48 | a successful search returns, as its captures, what the backtracking engine settles on at the line start where it stopped |
| IpAddress.SearchFound | ip_count.rb:48 | what the search returns is the match `=~` finds: the pattern matches at that line start, at no earlier line start, with the engine's captures |
| IpAddress.IsPrivateAnswers | ip_count.rb:52-61 | when `is_private?` answers, its answer is the RFC 1918 test on the first two octets of the match `=~` finds (the leftmost matching line), whose four octets are all below 256 |
| IpAddress.IsPrivateRangeCheck | ip_count.rb:52-53 | `is_private?` raises "is not a bad ip address" only when the match `=~` finds (the leftmost matching line) has an octet of 256 or more |
| IpAddress.MatchJoined | ip_count.rb:48 | groups joined by non-digit separators are read back as exactly those groups by the greedy search |
| IpAddress.AttemptJoined | ip_count.rb:48 | the alternative at the width of the first joined group captures exactly the joined groups |
| IpAddress.IsPrivateJoined | ip_count.rb:47-62 | a string made of four groups and three non-digit, non-newline separators is classified on those four groups (by both readings when the separators are dots) |
| IpAddress.DottedQuadClassified | ip_count.rb:47-62 | the dotted quad of four octets below 256 never raises, and is private exactly when its first two octets are in an RFC 1918 block, by both readings of the pattern |
| IpAddress.HostOctetsIgnored | ip_count.rb:55-61 | the third and fourth octets of a dotted quad never change the answer |
| IpAddress.IntendedGroupsUnique | ip_count.rb:48 | with a literal dot and anchors at both ends, a string has at most one reading as groups |
| IpAddress.IntendedFinds | ip_count.rb:48 | the intended search finds that one reading whenever it exists |
| IpAddress.IntendedAcceptsDottedQuads | ip_count.rb:48-61 | a string that is exactly one dotted quad is classified by its own four octets, and raises the range error exactly when one of them is 256 or more |
| IpAddress.IntendedRejectsExactly | ip_count.rb:48-50 | the intended reading rejects a string as not an address if and only if the whole string is not four digit groups joined by dots |
| IpAddress.NoMatchAtNonDigit | ip_count.rb:48 | no match starts at a character that is not a digit |
| IpAddress.IntendedNeedsDot | ip_count.rb:48 | under the intended reading a string fails when none of its second to fourth characters is a dot |
| IpAddress.TooShort | ip_count.rb:48 | k groups cannot match in fewer than 2k - 1 characters |
| IpAddress.AnySeparatorAccepted | ip_count.rb:48 | "10x0x0x1" is accepted as private as written, and rejected by the intended reading |
| IpAddress.AnyLineAccepted | ip_count.rb:48 | "host\n10.0.0.1" is accepted as private as written, because its second line matches, and rejected by the intended reading |
| IpAddress.GreedyReadingRejected | ip_count.rb:48-53 | "3001112222" can be read as 3, 0, 11 and 222 with digits as separators, yet the greedy match reads 300, 11, 2 and 2 and raises the range error; the intended reading rejects it as not an address |
| IpAddress.LeadingZerosAccepted | ip_count.rb:52 | "010.001.0.0" is read with `to_i` as decimal 10.1.0.0 and is private by both readings |
| Network.Len | ip_count.rb:109 | `network.len` is between 1 and 2^32 |
| Network.LenBlocks | ip_count.rb:109 | the 2^p blocks of prefix length p have length 2^(32 - p) and together cover the 2^32 addresses |
| Network.LenDoubles | ip_count.rb:109 | one network bit fewer doubles the block length |
| Network.NetworkAddress | ip_count.rb:101 | `network.network` is at most the parsed address, and the block that starts there holds it |
| Network.ClearLowBounds | ip_count.rb:101 | clearing the k low bits moves an address down by less than 2^k |
| Network.ClearLowMultiple | ip_count.rb:101 | clearing the k low bits leaves a multiple of 2^k |
| Network.NetworkAddressAligned | ip_count.rb:101 | the network address is a whole multiple of the block length |
| Network.OctetsOf | ip_count.rb:101 | the four bytes of an address, each below 256, from which the address is rebuilt most significant first |
| Network.OctetsClassify | ip_count.rb:55-61 | the octet test in `is_private?` holds exactly on the three RFC 1918 address ranges |
| Network.AddressTextClassified | ip_count.rb:101-107 | `is_private?` on the text of a network address never raises, and answers whether the address lies in an RFC 1918 block |
| Network.ClassifiedByUpperHalf | ip_count.rb:55-61 | whether an address is private depends only on its upper 16 bits |
| Network.SizeByPrefix | ip_count.rb:118 | the host count is -1 exactly for /32, 0 exactly for /31, at least 2 exactly for /30 and shorter, and never more than 2^32 - 2 |
| IpCount.ClassifyNetwork | ip_count.rb:101-107 | the class the loop gives a network is whether its network address lies in an RFC 1918 block |
| IpCount.ErrorPersists | ip_count.rb:97-122 | once a line has failed, the lines after it change nothing |
| IpCount.ProcessAccepts | ip_count.rb:97-122 | on input where every line parses, the loop yields the records of the private networks and those of the public ones, each in input order |
| IpCount.ProcessRejects | ip_count.rb:100 | the loop ends with the error of the first line the parser rejects |
| IpCount.FirstFailureExists | ip_count.rb:97-100 | input that does not all parse has a first line that fails |
| IpCount.Partition | ip_count.rb:95-122 | the loop succeeds exactly when every line parses; it then yields the two order-preserving class lists, and otherwise the error of the first failing line |
| IpCount.Outcome | ip_count.rb:97-122 | the reference loop succeeds exactly when every line parses, with the expected lists or else the first failure |
| IpCount.SelectAppend | ip_count.rb:120-121 | the class lists of a concatenation are the concatenations of the class lists |
| IpCount.SelectPartition | ip_count.rb:120-121 | each record lands in exactly one of the two lists: the lengths add up to the number of records and the lists together are a permutation of them |
| IpCount.SelectClassified | ip_count.rb:120-121 | every record in a class list belongs to that class |
| IpCount.SelectCount | ip_count.rb:120-121 | a record occurs in its own class list as often as among all records, and never in the other list |
| IpCount.SelectPermutation | ip_count.rb:120-121 | reordering the records reorders each class list the same way |
| IpCount.TotalAddresses | ip_count.rb:132-135 | the accumulator loop (also the one at lines 142-145) yields the sum of the host counts of the list |
| IpCount.SumSizesAppend | ip_count.rb:132-135 | the total of a concatenation is the sum of the totals |
| IpCount.SumSizesRemove | ip_count.rb:132-135 | taking one record out of a list takes its host count out of the total |
| IpCount.SumSizesPermutation | ip_count.rb:132-135 | the total does not depend on the order of the records |
| IpCount.SumSizesBounds | ip_count.rb:132-135 | with counts from -1 to 2^32 - 2, a total over n records lies between -n and n times 2^32 - 2 |
| IpCount.SumSplit | ip_count.rb:150-151 | the internal and external totals add up to the total over all records |
| IpCount.Summarize | ip_count.rb:130-151 | the summary holds each list's length and total, and their sums |
| IpCount.TallyOrderIndependent | ip_count.rb:130-151 | the summary of two host lists split from a sequence of records does not depend on the order of those records |
| IpCount.AllParsePermutation | ip_count.rb:97-100 | reordering input lines that all parse gives lines that all parse |
| IpCount.RecordsRemove | ip_count.rb:97-118 | dropping one line drops exactly that line's record from the records of the run |
| IpCount.RecordsPermutation | ip_count.rb:97-118 | reordering the input lines reorders the records of the run the same way |
| IpCount.RunOrderIndependent | ip_count.rb:97-151 | the summary of a run does not depend on the order of its input lines: any reordering of lines that all parse also all parses and gives the same summary |
| IpCount.RunTotals | ip_count.rb:130-151 | on well-formed input the network count is the number of lines, the class counts and totals add up to the combined ones, and the combined total is the sum over all records, between -n and n times 2^32 - 2 |
| IpCount.Run | ip_count.rb:97-153 | the run yields a summary exactly when every line parses: the summary of the expected lists, counting every line once; otherwise the error of the first failing line and no totals |

## Left out

- The network parser `NetAddr::IPv4Net.parse` and its rendering `network.to_s`: library code, a parameter of the model. The record keeps the parsed network itself in place of its text.
- The dotted-quad text of the network address comes from the library's `to_s`. It is modelled as the four octets in decimal with dots between them (`AddressText`).
- `File.readlines`, reading `ARGV[0]`, `usage` and `exit 1`: input and process control. `Run` takes the lines as a sequence.
- `format_message`, `format_heading`, `same_line` and every write to STDERR: console output only.
- The texts of the exceptions: an error keeps the failing line and the parser's reason. `IpError` keeps the string `is_private?` was given.
- A raise from `is_private?` inside the loop: it cannot happen on the text of a network address (`AddressTextClassified`), so the loop has no such error path.
- The `d` hash with its `:network` and `:size` keys is the datatype `HostRecord`.

## Findings

| source | as written | input that shows it | evidently intended | confidence | as-written member | corrected member |
|---|---|---|---|---|---|---|
| ip_count.rb:48 | the `.` between the groups is unescaped and accepts any character but a newline | "10x0x0x1" is reported private | only a literal dot separates the octets | high, not executed | IpAddress.AnySeparatorAccepted | IpAddress.IntendedRejectsExactly |
| ip_count.rb:48 | `^` and `$` are line anchors, so one matching line of a longer string is enough | "host\n10.0.0.1" is reported private | the whole string must be the address (`\A` and `\z`) | high, not executed | IpAddress.AnyLineAccepted | IpAddress.IntendedAcceptsDottedQuads |
| ip_count.rb:48-53 | with any character as separator, the greedy groups can swallow a digit meant as an octet | "3001112222" raises the range error although it splits as 3, 0, 11 and 222 | a string that is not a dotted quad is rejected as not an address | medium, not executed | IpAddress.GreedyReadingRejected | IpAddress.IntendedRejectsExactly |
