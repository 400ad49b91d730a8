/**
  The integration test's naming of its temporary store and its three pass/fail decisions: one
  normalised search result equal to the expected container, exactly eighteen successful uploads,
  and the uploaded store's records equal to the expected ones up to order.
*/
module DicomChecks {
  import opened Wrappers
  import opened DicomNormalize

  const NumInstance: nat := 18
  const RandLen: nat := 15
  const StatusOk: int := 200

  // ---------------------------------------------------------------- random_string_generator

  /** The `n` consecutive characters starting at `first`. */
  function Run(first: char, n: nat): (r: string)
    requires (first as int) + n <= 128
    ensures |r| == n
    ensures forall i :: 0 <= i < n ==> r[i] as int == (first as int) + i
  {
    if n == 0 then "" else Run(first, n - 1) + [((first as int) + n - 1) as char]
  }

  /** `string.ascii_letters + string.digits`: the lower-case letters, the upper-case letters, the digits. */
  const Alphabet: string := Run('a', 26) + Run('A', 26) + Run('0', 10)

  predicate IsAlnum(c: char) {
    ('a' <= c <= 'z') || ('A' <= c <= 'Z') || ('0' <= c <= '9')
  }

  /** An index `random.choice` may draw from `Alphabet`. */
  type Pick = i: nat | i < 62

  /** Where a letter or digit stands in `Alphabet`. */
  function AlphabetIndex(c: char): (i: Pick)
    requires IsAlnum(c)
    ensures |Alphabet| == 62 && Alphabet[i] == c
  {
    if 'a' <= c <= 'z' then (c as int) - ('a' as int)
    else if 'A' <= c <= 'Z' then 26 + (c as int) - ('A' as int)
    else 52 + (c as int) - ('0' as int)
  }

  /** The alphabet holds exactly the ASCII letters and digits, each once. */
  lemma AlphabetIsAlnum()
    ensures |Alphabet| == 62
    ensures forall i :: 0 <= i < 62 ==> IsAlnum(Alphabet[i])
    ensures forall i, j :: 0 <= i < j < 62 ==> Alphabet[i] != Alphabet[j]
  {
    forall i | 0 <= i < 62 ensures IsAlnum(Alphabet[i]) {
      AlphabetAt(i);
    }
    forall i, j | 0 <= i < j < 62 ensures Alphabet[i] != Alphabet[j] {
      AlphabetAt(i);
      AlphabetAt(j);
    }
  }

  /** The code of the character at index `i`: a lower-case letter, an upper-case letter or a digit. */
  lemma AlphabetAt(i: int)
    requires 0 <= i < 62
    ensures Alphabet[i] as int == if i < 26 then 97 + i else if i < 52 then 65 + (i - 26) else 48 + (i - 52)
  {
    var lower, upper, digits := Run('a', 26), Run('A', 26), Run('0', 10);
    assert Alphabet == lower + upper + digits;
    if i < 26 {
      assert Alphabet[i] == lower[i];
    } else if i < 52 {
      assert Alphabet[i] == upper[i - 26];
    } else {
      assert Alphabet[i] == digits[i - 52];
    }
  }

  /**
    `random_string_generator(length)`, the random source being the sequence of indices it draws:
    character `i` is the letter or digit at index `picks[i]`.
  */
  function RandomString(length: nat, picks: seq<Pick>): (r: string)
    requires |picks| >= length
    ensures |r| == length
    ensures forall i :: 0 <= i < length ==> r[i] == Alphabet[picks[i]] && IsAlnum(r[i])
  {
    AlphabetIsAlnum();
    seq(length, i requires 0 <= i < length => Alphabet[picks[i]])
  }

  /** Distinct draws give distinct strings. */
  lemma RandomStringInjective(length: nat, picks: seq<Pick>, other: seq<Pick>)
    requires |picks| >= length && |other| >= length
    ensures RandomString(length, picks) == RandomString(length, other) <==> picks[..length] == other[..length]
  {
    AlphabetIsAlnum();
    var r, q := RandomString(length, picks), RandomString(length, other);
    if r == q {
      forall i | 0 <= i < length ensures picks[i] == other[i] {
        assert Alphabet[picks[i]] == r[i] == q[i] == Alphabet[other[i]];
      }
      assert picks[..length] == other[..length];
    } else if picks[..length] == other[..length] {
      forall i | 0 <= i < length ensures r[i] == q[i] {
        assert picks[..length][i] == other[..length][i];
      }
      assert false;
    }
  }

  /** Every alphanumeric string is the one drawn by picking each of its characters' indices. */
  lemma RandomStringSurjective(target: string)
    requires forall i :: 0 <= i < |target| ==> IsAlnum(target[i])
    ensures RandomString(|target|, seq(|target|, i requires 0 <= i < |target| => AlphabetIndex(target[i]))) == target
  {
    var p := seq(|target|, i requires 0 <= i < |target| => AlphabetIndex(target[i]));
    var r := RandomString(|target|, p);
    forall i | 0 <= i < |target| ensures r[i] == target[i] {
      assert r[i] == Alphabet[p[i]];
    }
  }

  // ---------------------------------------------------------------- the temporary store name

  /** The moment `datetime.now()` returns, in the fields `strftime` prints. */
  datatype DateTime = DateTime(year: nat, month: nat, day: nat, hour: nat, minute: nat, second: nat, microsecond: nat)

  /** The ranges a Python `datetime` keeps its fields in. */
  predicate ValidDateTime(d: DateTime) {
    && 1 <= d.year <= 9999 && 1 <= d.month <= 12 && 1 <= d.day <= 31
    && d.hour < 24 && d.minute < 60 && d.second < 60 && d.microsecond < 1000000
  }

  function Pow10(w: nat): (p: nat)
    ensures p >= 1
  {
    if w == 0 then 1 else 10 * Pow10(w - 1)
  }

  function DigitChar(d: nat): char
    requires d < 10
  {
    ((('0' as int) + d) as char)
  }

  /** The decimal value of a string of digits. */
  function DigitsValue(s: string): nat
    requires forall i :: 0 <= i < |s| ==> '0' <= s[i] <= '9'
  {
    if s == [] then 0 else 10 * DigitsValue(s[..|s| - 1]) + ((s[|s| - 1] as int) - ('0' as int))
  }

  /** `n` in decimal, zero-padded to `w` digits (`%02d`, `%04d`, `%06d` as `strftime` prints fields). */
  function Pad(n: nat, w: nat): (r: string)
    ensures |r| == w
    ensures forall i :: 0 <= i < w ==> '0' <= r[i] <= '9'
  {
    if w == 0 then "" else Pad(n / 10, w - 1) + [DigitChar(n % 10)]
  }

  /** Reading a padded field back gives the number, when it fits in the width. */
  lemma {:induction false} PadRoundTrip(n: nat, w: nat)
    requires n < Pow10(w)
    ensures DigitsValue(Pad(n, w)) == n
  {
    if w > 0 {
      PadRoundTrip(n / 10, w - 1);
      var r := Pad(n, w);
      assert r[..|r| - 1] == Pad(n / 10, w - 1);
    }
  }

  /** `%Y-%m-%d`. */
  function DatePart(d: DateTime): (r: string)
    ensures |r| == 10
  {
    Pad(d.year, 4) + "-" + Pad(d.month, 2) + "-" + Pad(d.day, 2)
  }

  /** `%H%M%S`. */
  function ClockPart(d: DateTime): (r: string)
    ensures |r| == 6
  {
    Pad(d.hour, 2) + Pad(d.minute, 2) + Pad(d.second, 2)
  }

  /** `strftime('%Y-%m-%d_%H%M%S.%f_')`. */
  function Timestamp(d: DateTime): (r: string)
    ensures |r| == 25
  {
    DatePart(d) + "_" + ClockPart(d) + "." + Pad(d.microsecond, 6) + "_"
  }

  predicate Digits(s: string) {
    forall i :: 0 <= i < |s| ==> '0' <= s[i] <= '9'
  }

  predicate IsDate(s: string) {
    |s| == 10 && Digits(s[..4]) && s[4] == '-' && Digits(s[5..7]) && s[7] == '-' && Digits(s[8..10])
  }

  predicate IsClock(s: string) {
    |s| == 6 && Digits(s[..2]) && Digits(s[2..4]) && Digits(s[4..6])
  }

  /** Year, month and day of a `%Y-%m-%d` string. */
  function ReadDate(s: string): (nat, nat, nat)
    requires IsDate(s)
  {
    (DigitsValue(s[..4]), DigitsValue(s[5..7]), DigitsValue(s[8..10]))
  }

  /** Hour, minute and second of a `%H%M%S` string. */
  function ReadClock(s: string): (nat, nat, nat)
    requires IsClock(s)
  {
    (DigitsValue(s[..2]), DigitsValue(s[2..4]), DigitsValue(s[4..6]))
  }

  /** Reads the moment back from a timestamp in that format, if the string is one. */
  function ReadTimestamp(t: string): (d: Option<DateTime>)
    ensures d.Some? ==> |t| == 25
  {
    if |t| == 25 && IsDate(t[..10]) && t[10] == '_' && IsClock(t[11..17]) && t[17] == '.'
       && Digits(t[18..24]) && t[24] == '_'
    then
      var (year, month, day) := ReadDate(t[..10]);
      var (hour, minute, second) := ReadClock(t[11..17]);
      Some(DateTime(year, month, day, hour, minute, second, DigitsValue(t[18..24])))
    else None
  }

  lemma DateRoundTrip(d: DateTime)
    requires ValidDateTime(d)
    ensures IsDate(DatePart(d)) && ReadDate(DatePart(d)) == (d.year, d.month, d.day)
  {
    var s := DatePart(d);
    assert s[..4] == Pad(d.year, 4) && s[5..7] == Pad(d.month, 2) && s[8..10] == Pad(d.day, 2);
    assert Pow10(2) == 100 && Pow10(4) == 10000;
    PadRoundTrip(d.year, 4);
    PadRoundTrip(d.month, 2);
    PadRoundTrip(d.day, 2);
  }

  lemma ClockRoundTrip(d: DateTime)
    requires ValidDateTime(d)
    ensures IsClock(ClockPart(d)) && ReadClock(ClockPart(d)) == (d.hour, d.minute, d.second)
  {
    var s := ClockPart(d);
    assert s[..2] == Pad(d.hour, 2) && s[2..4] == Pad(d.minute, 2) && s[4..6] == Pad(d.second, 2);
    assert Pow10(2) == 100;
    PadRoundTrip(d.hour, 2);
    PadRoundTrip(d.minute, 2);
    PadRoundTrip(d.second, 2);
  }

  /** The timestamp of a valid moment reads back as that moment: no two moments share a timestamp. */
  lemma TimestampRoundTrip(d: DateTime)
    requires ValidDateTime(d)
    ensures ReadTimestamp(Timestamp(d)) == Some(d)
  {
    var t := Timestamp(d);
    assert t[..10] == DatePart(d) && t[11..17] == ClockPart(d) && t[18..24] == Pad(d.microsecond, 6);
    DateRoundTrip(d);
    ClockRoundTrip(d);
    assert Pow10(6) == 1000000;
    PadRoundTrip(d.microsecond, 6);
  }

  /** The name of the temporary store: `DICOM_store_`, the timestamp, and a random suffix of `RandLen` characters. */
  function TempStoreName(now: DateTime, picks: seq<Pick>): (r: string)
    requires |picks| >= RandLen
    ensures |r| == 12 + 25 + RandLen
    ensures r[..12] == "DICOM_store_" && r[12..37] == Timestamp(now)
    ensures r[37..] == RandomString(RandLen, picks)
  {
    "DICOM_store_" + Timestamp(now) + RandomString(RandLen, picks)
  }

  /**
    The store name is made of letters, digits, `_`, `-` and `.`, and its timestamp, which ends
    with the underscore before the random suffix, reads back as the moment it was taken.
  */
  lemma TempStoreNameLayout(now: DateTime, picks: seq<Pick>)
    requires |picks| >= RandLen && ValidDateTime(now)
    ensures var r := TempStoreName(now, picks);
      && (forall i :: 0 <= i < |r| ==> IsAlnum(r[i]) || r[i] in "_-.")
      && r[36] == '_'
      && ReadTimestamp(r[12..37]) == Some(now)
  {
    var r := TempStoreName(now, picks);
    var t := Timestamp(now);
    TimestampRoundTrip(now);
    assert t[24] == '_';
    assert forall i :: 0 <= i < 25 ==> IsAlnum(t[i]) || t[i] in "_-." by {
      forall i | 0 <= i < 25 ensures IsAlnum(t[i]) || t[i] in "_-." {
        if i < 10 {
          assert t[i] == DatePart(now)[i];
        } else if 11 <= i < 17 {
          assert t[i] == ClockPart(now)[i - 11];
        }
      }
    }
    forall i | 0 <= i < |r| ensures IsAlnum(r[i]) || r[i] in "_-." {
      if i >= 37 {
        assert r[i] == RandomString(RandLen, picks)[i - 37];
      } else if i >= 12 {
        assert r[i] == t[i - 12];
      }
    }
  }

  // ---------------------------------------------------------------- the comparisons

  /** `equal_to` and `assertCountEqual`: the same elements, each the same number of times, in any order. */
  predicate SameElements<T(==)>(actual: seq<T>, expected: seq<T>) {
    multiset(actual) == multiset(expected)
  }

  /** Against a one-element expectation, order-insensitive equality is plain list equality. */
  lemma SameAsSingleton<T>(actual: seq<T>, e: T)
    ensures SameElements(actual, [e]) <==> actual == [e]
  {
    if SameElements(actual, [e]) {
      assert |actual| == |multiset(actual)| == 1;
      assert actual[0] in multiset(actual);
    }
  }

  /** The normalised outputs of a search branch, or the error normalising one of them raises. */
  function NormalizeOuterAll(outputs: seq<Record>): (r: Result<seq<Record>, NormalizeError>)
    ensures r.Success? <==> forall i :: 0 <= i < |outputs| ==> NormalizeOuter(outputs[i]).Success?
    ensures r.Success? ==> |r.value| == |outputs|
    ensures r.Success? ==> forall i :: 0 <= i < |outputs| ==> r.value[i] == NormalizeOuter(outputs[i]).value
  {
    if outputs == [] then Success([])
    else
      var head := NormalizeOuter(outputs[0]);
      var rest := NormalizeOuterAll(outputs[1..]);
      assert forall i :: 1 <= i < |outputs| ==> outputs[i] == outputs[1..][i - 1];
      if head.Failure? then Failure(head.error)
      else if rest.Failure? then Failure(rest.error)
      else Success([head.value] + rest.value)
  }

  /** One search branch: the normalised outputs equal, as `equal_to`, the one normalised expected container. */
  predicate SearchBranchPasses(outputs: seq<Record>, expected: Record) {
    var actual := NormalizeOuterAll(outputs);
    var want := NormalizeOuter(expected);
    actual.Success? && want.Success? && SameElements(actual.value, [want.value])
  }

  /** A search branch passes exactly when it produced one output whose normalisation is the expected one's. */
  lemma SearchBranchPassesIff(outputs: seq<Record>, expected: Record)
    ensures SearchBranchPasses(outputs, expected)
       <==> |outputs| == 1 && NormalizeOuter(expected).Success?
            && NormalizeOuter(outputs[0]) == NormalizeOuter(expected)
  {
    var actual := NormalizeOuterAll(outputs);
    var want := NormalizeOuter(expected);
    if actual.Success? && want.Success? {
      SameAsSingleton(actual.value, want.value);
    }
    if |outputs| == 1 && want.Success? && NormalizeOuter(outputs[0]) == want {
      assert actual.value == [want.value];
    }
  }

  // The containers the search test expects.

  const Region := "us-central1"
  const DataSetId := "apache-beam-integration-testing"
  const PersistentStore := "dicom_it_persistent_store"

  /** The search request: all instances of the persistent store, or, refined, one study's first 500. */
  function SearchInput(project: string, refine: bool): (r: Record)
    ensures "project_id" in r && r["project_id"] == JStr(project)
    ensures "search_type" in r && r["search_type"] == JStr("instances")
    ensures "params" in r <==> refine
  {
    var base := map[
      "project_id" := JStr(project), "region" := JStr(Region), "dataset_id" := JStr(DataSetId),
      "dicom_store_id" := JStr(PersistentStore), "search_type" := JStr("instances")];
    if refine then
      base["params" := JObj(map["StudyInstanceUID" := JStr("study_000000001"), "limit" := JInt(500), "offset" := JInt(0)])]
    else base
  }

  /** The container a successful search returns for `input`, with the downloaded metadata as `result`. */
  function ExpectedContainer(metadata: Json, input: Record): (r: Record)
    ensures r.Keys == {"result", "status", "input", "success"}
  {
    map["result" := metadata, "status" := JInt(StatusOk), "input" := JObj(input), "success" := JBool(true)]
  }

  /**
    Normalising an expected container keeps its status, input and success flag; so a branch passes
    only on output that reports HTTP 200, success and the very request that was sent.
  */
  lemma ExpectedContainerNormalized(metadata: Json, input: Record, outputs: seq<Record>)
    requires SearchBranchPasses(outputs, ExpectedContainer(metadata, input))
    ensures |outputs| == 1
    ensures var o := NormalizeOuter(outputs[0]).value;
      o["status"] == JInt(StatusOk) && o["success"] == JBool(true) && o["input"] == JObj(input)
  {
    SearchBranchPassesIff(outputs, ExpectedContainer(metadata, input));
  }

  // The ingest check.

  /** `[True] * n`. */
  function AllTrue(n: nat): (r: seq<bool>)
    ensures |r| == n && forall i :: 0 <= i < n ==> r[i]
  {
    if n == 0 then [] else AllTrue(n - 1) + [true]
  }

  /** `equal_to([True] * NUM_INSTANCE)` over the upload success flags. */
  predicate IngestPasses(outcomes: seq<bool>) {
    SameElements(outcomes, AllTrue(NumInstance))
  }

  /** Flags equal up to order to all-true flags are all true, and as many. */
  lemma SameAsAllTrue(outcomes: seq<bool>, n: nat)
    requires SameElements(outcomes, AllTrue(n))
    ensures |outcomes| == n && forall i :: 0 <= i < |outcomes| ==> outcomes[i]
  {
    var all := AllTrue(n);
    assert |outcomes| == |multiset(outcomes)| == |multiset(all)| == n;
    forall i | 0 <= i < |outcomes| ensures outcomes[i] {
      assert outcomes[i] in multiset(all);
    }
  }

  /** The ingest check passes exactly on eighteen flags that are all true. */
  lemma IngestPassesIff(outcomes: seq<bool>)
    ensures IngestPasses(outcomes) <==> |outcomes| == NumInstance && forall i :: 0 <= i < |outcomes| ==> outcomes[i]
  {
    if IngestPasses(outcomes) {
      SameAsAllTrue(outcomes, NumInstance);
    }
    if |outcomes| == NumInstance && forall i :: 0 <= i < |outcomes| ==> outcomes[i] {
      OnlyAllTrue(outcomes, NumInstance);
    }
  }

  /** All-true flags, as many as `n`, are `[True] * n`. */
  lemma OnlyAllTrue(outcomes: seq<bool>, n: nat)
    requires |outcomes| == n && forall i :: 0 <= i < |outcomes| ==> outcomes[i]
    ensures outcomes == AllTrue(n)
  {
  }

  /** No uploads, or one failed upload among eighteen, fail the check. */
  lemma IngestRejects(outcomes: seq<bool>, i: nat)
    ensures !IngestPasses([])
    ensures i < |outcomes| && !outcomes[i] ==> !IngestPasses(outcomes)
  {
    IngestPassesIff([]);
    IngestPassesIff(outcomes);
  }

  // The post-ingest check.

  /** `[normalize_instance(r) for r in records]`. */
  function NormalizeAll(records: seq<Record>): (r: seq<Record>)
    ensures |r| == |records|
    ensures forall i :: 0 <= i < |records| ==> r[i] == NormalizeInstance(records[i])
  {
    seq(|records|, i requires 0 <= i < |records| => NormalizeInstance(records[i]))
  }

  /** The store answered with HTTP 200, and its normalised records are the expected ones up to order. */
  predicate PostIngestPasses(status: int, result: seq<Record>, expected: seq<Record>) {
    status == StatusOk && SameElements(NormalizeAll(result), NormalizeAll(expected))
  }

  lemma NormalizeAllAppend(a: seq<Record>, b: seq<Record>)
    ensures NormalizeAll(a + b) == NormalizeAll(a) + NormalizeAll(b)
  {
  }

  /** Taking one record out of a list takes its normalisation out of the normalised list. */
  lemma NormalizeAllRemove(b: seq<Record>, j: nat)
    requires j < |b|
    ensures multiset(NormalizeAll(b))
         == multiset(NormalizeAll(b[..j] + b[j + 1..])) + multiset{NormalizeInstance(b[j])}
  {
    var pre, post, n := b[..j], b[j + 1..], NormalizeInstance(b[j]);
    assert b == pre + [b[j]] + post;
    NormalizeAllAppend(pre + [b[j]], post);
    NormalizeAllAppend(pre, [b[j]]);
    NormalizeAllAppend(pre, post);
    var np, nq := NormalizeAll(pre), NormalizeAll(post);
    assert NormalizeAll(b) == np + [n] + nq;
    assert NormalizeAll(pre + post) == np + nq;
    assert multiset(np + [n] + nq) == multiset(np) + multiset{n} + multiset(nq);
  }

  /** Matching the first element of one list with element `j` of a permutation leaves permutations. */
  lemma RemoveMatched<T>(a: seq<T>, b: seq<T>, j: nat)
    requires multiset(a) == multiset(b) && a != [] && j < |b| && b[j] == a[0]
    ensures multiset(a[1..]) == multiset(b[..j] + b[j + 1..])
  {
    assert a == [a[0]] + a[1..];
    assert b == b[..j] + [b[j]] + b[j + 1..];
    assert multiset(a) == multiset{a[0]} + multiset(a[1..]);
    assert multiset(b) == multiset(b[..j]) + multiset{a[0]} + multiset(b[j + 1..]);
    assert multiset(a[1..]) == multiset(a) - multiset{a[0]};
  }

  /** Records that are the same up to order normalise to records that are the same up to order. */
  lemma {:induction false} NormalizeAllPermutes(a: seq<Record>, b: seq<Record>)
    requires multiset(a) == multiset(b)
    ensures multiset(NormalizeAll(a)) == multiset(NormalizeAll(b))
    decreases |a|
  {
    if a != [] {
      var x := a[0];
      assert x in multiset(b);
      var j :| 0 <= j < |b| && b[j] == x;
      var rest := b[..j] + b[j + 1..];
      RemoveMatched(a, b, j);
      NormalizeAllPermutes(a[1..], rest);
      assert a == [x] + a[1..];
      NormalizeAllAppend([x], a[1..]);
      assert NormalizeAll([x]) == [NormalizeInstance(x)];
      assert multiset(NormalizeAll(a)) == multiset{NormalizeInstance(x)} + multiset(NormalizeAll(a[1..]));
      NormalizeAllRemove(b, j);
    }
  }

  /** Permuting either list of records does not change the verdict. */
  lemma PostIngestPermutationInvariant(status: int, result: seq<Record>, result': seq<Record>,
                                       expected: seq<Record>, expected': seq<Record>)
    requires multiset(result) == multiset(result') && multiset(expected) == multiset(expected')
    ensures PostIngestPasses(status, result, expected) == PostIngestPasses(status, result', expected')
  {
    NormalizeAllPermutes(result, result');
    NormalizeAllPermutes(expected, expected');
  }

  /** The check counts duplicates: a record returned twice where the metadata lists it once fails. */
  lemma PostIngestCountsDuplicates(r: Record, s: Record)
    requires NormalizeInstance(r) != NormalizeInstance(s)
    ensures !PostIngestPasses(StatusOk, [r, r], [r])
    ensures !PostIngestPasses(StatusOk, [r, r, s], [r, s, s])
  {
    var nr, ns := NormalizeInstance(r), NormalizeInstance(s);
    assert NormalizeAll([r, r]) == [nr, nr];
    assert |multiset([nr, nr])| != |multiset([nr])|;
    assert NormalizeAll([r, r, s]) == [nr, nr, ns];
    assert NormalizeAll([r, s, s]) == [nr, ns, ns];
    assert multiset([nr, nr, ns])[nr] == 2;
    assert multiset([nr, ns, ns])[nr] == 1;
  }

  /** A status other than 200 fails before the records are compared. */
  lemma PostIngestNeedsOk(status: int, result: seq<Record>, expected: seq<Record>)
    requires status != StatusOk
    ensures !PostIngestPasses(status, result, expected)
  {
  }

  /** The store's records may differ from the metadata in their volatile tags and still pass. */
  lemma PostIngestIgnoresVolatile(result: seq<Record>, expected: seq<Record>)
    requires |result| == |expected|
    requires forall i :: 0 <= i < |result| ==>
      result[i].Keys - VolatileTags == expected[i].Keys - VolatileTags
      && forall k :: k in result[i] && k in expected[i] && k !in VolatileTags ==> result[i][k] == expected[i][k]
    ensures PostIngestPasses(StatusOk, result, expected)
  {
    forall i | 0 <= i < |result| ensures NormalizeInstance(result[i]) == NormalizeInstance(expected[i]) {
      NormalizeInstanceIgnoresVolatile(result[i], expected[i]);
    }
    assert NormalizeAll(result) == NormalizeAll(expected);
  }
}
