/** Waiting for a package index to show exactly the files that were uploaded. Seconds are reals. */
module Publication {
  import opened Common
  import opened FieldCasing

  // ---- file hashes ------------------------------------------------------------------------------

  /** A file entry as decoded JSON: `None` where the value is not a string. */
  datatype Entry = Entry(filename: Option<string>, sha256: Option<string>)

  /** `urls` is `None` when it is not a list, an entry is `None` when it is not an object. */
  datatype Payload = Payload(urls: Option<seq<Option<Entry>>>)

  predicate Usable(entry: Entry) {
    entry.filename.Some? && entry.sha256.Some?
  }

  predicate UsableInManifest(entry: Entry) {
    Usable(entry) && |entry.sha256.value| == 64
  }

  function Pair(entry: Entry): (string, string)
    requires Usable(entry)
  {
    (entry.filename.value, Lowered(entry.sha256.value))
  }

  function Pairs(entries: seq<Entry>): seq<(string, string)>
    requires forall i | 0 <= i < |entries| :: Usable(entries[i])
  {
    seq(|entries|, i requires 0 <= i < |entries| => Pair(entries[i]))
  }

  /** What is wrong with a manifest that gives no hashes. */
  function ManifestFault(files: seq<Entry>): Fault {
    if exists i | 0 <= i < |files| :: !UsableInManifest(files[i]) then Error("invalid filename or SHA256")
    else Error("filenames must be unique")
  }

  method ManifestHashes(files: seq<Entry>) returns (result: Result<map<string, string>>)
    ensures result.Ok? <==> (forall i | 0 <= i < |files| :: UsableInManifest(files[i])) && |Dict(Pairs(files))| == 2
    ensures result.Ok? ==> result.value == Dict(Pairs(files))
    ensures result.Raised? ==> result.fault == ManifestFault(files)
  {
    var hashes: map<string, string> := map[];
    for n := 0 to |files|
      invariant forall i | 0 <= i < n :: UsableInManifest(files[i])
      invariant hashes == Dict(Pairs(files[..n]))
    {
      if !UsableInManifest(files[n]) {
        return Raised(Error("invalid filename or SHA256"));
      }
      hashes := hashes[files[n].filename.value := Lowered(files[n].sha256.value)];
      assert Pairs(files[..n + 1]) == Pairs(files[..n]) + [Pair(files[n])];
    }
    assert files[..|files|] == files;
    if |hashes| != 2 {
      return Raised(Error("filenames must be unique"));
    }
    result := Ok(hashes);
  }

  predicate Listed(payload: Payload) {
    payload.urls.Some?
    && forall i | 0 <= i < |payload.urls.value| ::
         payload.urls.value[i].Some? && Usable(payload.urls.value[i].value)
  }

  function Files(payload: Payload): seq<Entry>
    requires Listed(payload)
  {
    seq(|payload.urls.value|, i requires 0 <= i < |payload.urls.value| => payload.urls.value[i].value)
  }

  /** The first entry the index should not have shown. */
  function FirstBad(urls: seq<Option<Entry>>): Fault {
    if urls == [] then Error("")
    else if urls[0].None? then Error("malformed file entry")
    else if !Usable(urls[0].value) then Error("missing a filename or SHA256 digest")
    else FirstBad(urls[1..])
  }

  /** What is wrong with a payload that gives no hashes. */
  function IndexFault(payload: Payload): Fault {
    if payload.urls.None? then Error("no urls list") else FirstBad(payload.urls.value)
  }

  method PypiHashes(payload: Payload) returns (result: Result<map<string, string>>)
    ensures result.Ok? <==> Listed(payload)
    ensures result.Ok? ==> result.value == Dict(Pairs(Files(payload)))
    ensures result.Raised? ==> result.fault == IndexFault(payload)
  {
    hide Lowered;
    if payload.urls.None? {
      return Raised(Error("no urls list"));
    }
    var urls := payload.urls.value;
    var hashes: map<string, string> := map[];
    for n := 0 to |urls|
      invariant Listed(Payload(Some(urls[..n])))
      invariant hashes == Dict(Pairs(Files(Payload(Some(urls[..n])))))
      invariant FirstBad(urls) == FirstBad(urls[n..])
    {
      assert urls[n..][1..] == urls[n + 1..];
      if urls[n].None? {
        return Raised(Error("malformed file entry"));
      }
      if !Usable(urls[n].value) {
        return Raised(Error("missing a filename or SHA256 digest"));
      }
      hashes := hashes[urls[n].value.filename.value := Lowered(urls[n].value.sha256.value)];
      assert Pairs(Files(Payload(Some(urls[..n + 1])))) == Pairs(Files(Payload(Some(urls[..n]))))
          + [Pair(urls[n].value)];
    }
    assert urls[..|urls|] == urls;
    result := Ok(hashes);
  }

  /** The manifest and the index agree on the file names and on the digest of each. */
  ghost predicate Parity(files: seq<Entry>, payload: Payload) {
    && (forall i | 0 <= i < |files| :: UsableInManifest(files[i]))
    && |Dict(Pairs(files))| == 2
    && Listed(payload)
    && Dict(Pairs(Files(payload))) == Dict(Pairs(files))
  }

  /** What a failed verification reports: the manifest's fault first, then the index's, then the difference. */
  function ParityFault(files: seq<Entry>, payload: Payload): Fault {
    if (exists i | 0 <= i < |files| :: !UsableInManifest(files[i])) || |Dict(Pairs(files))| != 2 then
      ManifestFault(files)
    else if !Listed(payload) then IndexFault(payload)
    else Error("file parity mismatch")
  }

  method VerifyHashParity(files: seq<Entry>, payload: Payload) returns (result: Result<()>)
    ensures result.Ok? <==> Parity(files, payload)
    ensures result.Raised? ==> result.fault == ParityFault(files, payload)
  {
    var expected :- ManifestHashes(files);
    var actual :- PypiHashes(payload);
    if actual != expected {
      return Raised(Error("file parity mismatch"));
    }
    result := Ok(());
  }

  /**
   With two manifest entries, parity means the index lists those two names, with those digests up to
   case, and no other file.
   */
  lemma ParityIsExact(wheel: Entry, sdist: Entry, payload: Payload)
    requires UsableInManifest(wheel) && UsableInManifest(sdist) && wheel.filename != sdist.filename && Listed(payload)
    ensures Parity([wheel, sdist], payload) ==>
      forall i | 0 <= i < |Files(payload)| :: Files(payload)[i].filename in {wheel.filename, sdist.filename}
    ensures Parity([wheel, sdist], payload) ==>
      exists i, j | 0 <= i < |Files(payload)| && 0 <= j < |Files(payload)| ::
        Pair(Files(payload)[i]) == Pair(wheel) && Pair(Files(payload)[j]) == Pair(sdist)
  {
    if Parity([wheel, sdist], payload) {
      var files := Files(payload);
      var pairs := Pairs(files);
      assert Pairs([wheel, sdist]) == [Pair(wheel)] + [Pair(sdist)];
      assert Dict([Pair(wheel)]) == map[Pair(wheel).0 := Pair(wheel).1];
      assert ([Pair(wheel)] + [Pair(sdist)])[..1] == [Pair(wheel)];
      DictComesFromPairs(pairs);
      assert Pair(wheel).0 in Dict(pairs) && Pair(sdist).0 in Dict(pairs);
      var i :| 0 <= i < |pairs| && pairs[i] == Pair(wheel);
      var j :| 0 <= j < |pairs| && pairs[j] == Pair(sdist);
      assert Pair(files[i]) == Pair(wheel) && Pair(files[j]) == Pair(sdist);
      forall k | 0 <= k < |files| ensures files[k].filename in {wheel.filename, sdist.filename} {
        assert pairs[k] in pairs && pairs[k].0 in Dict(pairs);
      }
    }
  }

  /** The last entry of that name in the index has the same digest, whatever the case of its letters. */
  ghost predicate ShownAlike(urls: seq<Option<Entry>>, file: Entry) {
    exists p ::
      && 0 <= p < |urls| && urls[p].Some? && urls[p].value.filename == file.filename
      && urls[p].value.sha256.Some? && file.sha256.Some?
      && Lowered(urls[p].value.sha256.value) == Lowered(file.sha256.value)
      && forall q | p < q < |urls| && urls[q].Some? :: urls[q].value.filename != file.filename
  }

  /** Two manifest entries agree with the index, entry by entry. */
  ghost predicate Agree(wheel: Entry, sdist: Entry, payload: Payload) {
    && wheel.filename.Some? && wheel.sha256.Some? && |wheel.sha256.value| == 64
    && sdist.filename.Some? && sdist.sha256.Some? && |sdist.sha256.value| == 64
    && wheel.filename != sdist.filename
    && payload.urls.Some?
    && (forall i | 0 <= i < |payload.urls.value| ::
          && payload.urls.value[i].Some? && payload.urls.value[i].value.sha256.Some?
          && payload.urls.value[i].value.filename in {wheel.filename, sdist.filename})
    && ShownAlike(payload.urls.value, wheel) && ShownAlike(payload.urls.value, sdist)
  }

  lemma ShownAlikeIff(payload: Payload, file: Entry)
    requires Listed(payload) && Usable(file)
    ensures var shown := Dict(Pairs(Files(payload)));
      ShownAlike(payload.urls.value, file) <==> Pair(file).0 in shown && shown[Pair(file).0] == Pair(file).1
  {
    hide Lowered, Dict;
    var urls, pairs, name := payload.urls.value, Pairs(Files(payload)), file.filename.value;
    assert forall i | 0 <= i < |urls| :: pairs[i] == Pair(urls[i].value);
    DictHasTheLast(pairs, name);
    if name in Dict(pairs) {
      var p :| 0 <= p < |pairs| && pairs[p] == (name, Dict(pairs)[name])
        && forall q | p < q < |pairs| :: pairs[q].0 != name;
      assert forall q | p < q < |urls| :: pairs[q].0 == urls[q].value.filename.value;
    }
    if ShownAlike(urls, file) {
      var p :| && 0 <= p < |urls| && urls[p].value.filename == file.filename
               && Lowered(urls[p].value.sha256.value) == Lowered(file.sha256.value)
               && forall q | p < q < |urls| :: urls[q].value.filename != file.filename;
      assert pairs[p] == Pair(file);
      assert forall q | p < q < |pairs| :: pairs[q].0 == urls[q].value.filename.value;
    }
  }

  lemma ParityIff(wheel: Entry, sdist: Entry, payload: Payload)
    ensures Parity([wheel, sdist], payload) <==> Agree(wheel, sdist, payload)
  {
    hide Lowered, ShownAlike;
    var files := [wheel, sdist];
    assert files[0] == wheel && files[1] == sdist;
    if UsableInManifest(wheel) && UsableInManifest(sdist) {
      assert Pairs(files) == [Pair(wheel), Pair(sdist)];
      DictOfTwo(Pair(wheel).0, Pair(wheel).1, Pair(sdist).0, Pair(sdist).1);
      if Listed(payload) && wheel.filename != sdist.filename {
        AgreeingIsParity(wheel, sdist, payload);
      }
    }
  }

  lemma AgreeingIsParity(wheel: Entry, sdist: Entry, payload: Payload)
    requires UsableInManifest(wheel) && UsableInManifest(sdist) && wheel.filename != sdist.filename && Listed(payload)
    ensures Dict(Pairs(Files(payload))) == map[Pair(wheel).0 := Pair(wheel).1][Pair(sdist).0 := Pair(sdist).1]
       <==> Agree(wheel, sdist, payload)
  {
    hide Lowered, ShownAlike, Dict;
    var urls, pairs := payload.urls.value, Pairs(Files(payload));
    var shown, wanted := Dict(pairs), map[Pair(wheel).0 := Pair(wheel).1][Pair(sdist).0 := Pair(sdist).1];
    ShownAlikeIff(payload, wheel);
    ShownAlikeIff(payload, sdist);
    DictComesFromPairs(pairs);
    assert forall i | 0 <= i < |urls| :: pairs[i] == Pair(urls[i].value);
    if shown == wanted {
      forall i | 0 <= i < |urls| ensures urls[i].value.filename in {wheel.filename, sdist.filename} {
        assert pairs[i] in pairs && pairs[i].0 in shown;
      }
    }
    if Agree(wheel, sdist, payload) {
      forall k ensures k in shown <==> k in wanted {
        if k in shown {
          var i :| 0 <= i < |pairs| && pairs[i] == (k, shown[k]);
          assert urls[i].value.filename in {wheel.filename, sdist.filename};
        }
      }
    }
  }

  // ---- backoff ------------------------------------------------------------------------------------

  const MAX_DELAY := 60.0

  function Capped(seconds: real): real {
    if seconds < MAX_DELAY then seconds else MAX_DELAY
  }

  /** The delay before retry `i`. */
  function Delay(initial: real, i: nat): real {
    if i == 0 then Capped(initial) else Capped(2.0 * Delay(initial, i - 1))
  }

  function Sum(delays: seq<real>): real {
    if delays == [] then 0.0 else Sum(delays[..|delays| - 1]) + delays[|delays| - 1]
  }

  function Schedule(initial: real, n: nat): seq<real> {
    seq(n, i requires 0 <= i < n => Delay(initial, i))
  }

  function Power2(i: nat): real {
    if i == 0 then 1.0 else 2.0 * Power2(i - 1)
  }

  lemma CappingCommutes(seconds: real)
    requires seconds > 0.0
    ensures Capped(2.0 * Capped(seconds)) == Capped(2.0 * seconds)
  {
  }

  lemma DoublingCommutes(x: real, y: real, z: real)
    requires z == 2.0 * y
    ensures x * z == 2.0 * (x * y)
  {
  }

  lemma {:induction false} DelayBounds(initial: real, i: nat)
    requires initial > 0.0
    ensures 0.0 < Capped(initial) <= Delay(initial, i) <= MAX_DELAY
  {
    if i > 0 {
      DelayBounds(initial, i - 1);
    }
  }

  /** The first delay doubled `i` times, with no cap. */
  function Doubled(initial: real, i: nat): real {
    initial * Power2(i)
  }

  lemma {:induction false} DoubledGrows(initial: real, i: nat)
    requires initial > 0.0
    ensures Doubled(initial, 0) == initial && Doubled(initial, i) > 0.0
    ensures Doubled(initial, i + 1) == 2.0 * Doubled(initial, i)
  {
    DoublingCommutes(initial, Power2(i), Power2(i + 1));
    if i > 0 {
      DoubledGrows(initial, i - 1);
    }
  }

  /** Doubling one delay at a time is doubling the first one `i` times, capped at a minute. */
  lemma {:induction false} DelayIsCappedPower(initial: real, i: nat)
    requires initial > 0.0
    ensures Delay(initial, i) == Capped(Doubled(initial, i))
  {
    hide Doubled;
    if i > 0 {
      DelayIsCappedPower(initial, i - 1);
      DoubledGrows(initial, i - 1);
      CappingCommutes(Doubled(initial, i - 1));
    } else {
      DoubledGrows(initial, 0);
    }
  }

  lemma ScheduleStep(initial: real, n: nat)
    ensures Schedule(initial, n + 1) == Schedule(initial, n) + [Delay(initial, n)]
    ensures Sum(Schedule(initial, n + 1)) == Sum(Schedule(initial, n)) + Delay(initial, n)
  {
    assert Schedule(initial, n + 1)[..n] == Schedule(initial, n);
  }

  lemma {:induction false} LongerWaitsMore(initial: real, m: nat, n: nat)
    requires initial > 0.0 && m <= n
    ensures Sum(Schedule(initial, m)) <= Sum(Schedule(initial, n))
    decreases n
  {
    if m < n {
      LongerWaitsMore(initial, m, n - 1);
      ScheduleStep(initial, n - 1);
      DelayBounds(initial, n - 1);
    }
  }

  lemma RoomShrinks(room: real, delay: real, first: real)
    requires 0.0 < first <= delay
    ensures (room - delay) / first <= room / first - 1.0
  {
    var before, after := room / first, (room - delay) / first;
    var gap := before - after;
    assert gap * first == delay by {
      assert before * first == room && after * first == room - delay;
      Distributes(before, after, first);
    }
    if gap < 1.0 {
      Scales(gap, 1.0, first);
    }
  }

  lemma Distributes(x: real, y: real, z: real)
    ensures (x - y) * z == x * z - y * z
  {
  }

  lemma Scales(x: real, y: real, z: real)
    requires x < y && z > 0.0
    ensures x * z < y * z
  {
  }

  /** The longest doubling schedule, capped at a minute, whose sum stays within the budget. */
  method BackoffDelays(initial: real, budget: real) returns (delays: seq<real>)
    ensures delays == Schedule(initial, |delays|)
    ensures forall i | 0 <= i < |delays| :: 0.0 < delays[i] <= MAX_DELAY
    ensures delays != [] ==> Sum(delays) <= budget
    ensures initial <= 0.0 ==> delays == []
    ensures initial > 0.0 && budget >= 0.0 ==> forall n: nat :: Sum(Schedule(initial, n)) <= budget <==> n <= |delays|
  {
    hide Delay, Sum, Schedule;
    delays := [];
    var delay := Capped(initial);
    NoDelays(initial);
    while delay > 0.0 && Sum(delays) + delay <= budget
      invariant delays == Schedule(initial, |delays|) && delay == Delay(initial, |delays|)
      invariant forall i | 0 <= i < |delays| :: 0.0 < delays[i] <= MAX_DELAY
      invariant delays != [] ==> Sum(delays) <= budget
      invariant initial <= 0.0 ==> delays == []
      decreases if initial > 0.0 then (budget - Sum(delays)) / Capped(initial) else 0.0
    {
      ScheduleStep(initial, |delays|);
      OneMoreDelay(initial, budget, delays, delay);
      delays := delays + [delay];
      delay := Capped(delay * 2.0);
    }
    if initial > 0.0 && budget >= 0.0 {
      DelayBounds(initial, |delays|);
      NothingLongerFits(initial, budget, |delays|);
    }
  }

  lemma NoDelays(initial: real)
    ensures Schedule(initial, 0) == [] && Sum([]) == 0.0 && Delay(initial, 0) == Capped(initial)
    ensures initial <= 0.0 ==> Capped(initial) <= 0.0
  {
  }

  /** Taking another delay leaves at least one first delay less of the budget. */
  lemma OneMoreDelay(initial: real, budget: real, delays: seq<real>, delay: real)
    requires delay == Delay(initial, |delays|) && delay > 0.0 && Sum(delays) + delay <= budget
    requires initial <= 0.0 ==> delays == []
    ensures initial > 0.0 && Capped(initial) > 0.0 && delay <= MAX_DELAY
    ensures Delay(initial, |delays| + 1) == Capped(delay * 2.0)
    ensures Sum(delays + [delay]) == Sum(delays) + delay
    ensures 0.0 <= (budget - Sum(delays + [delay])) / Capped(initial) <= (budget - Sum(delays)) / Capped(initial) - 1.0
  {
    hide Delay, Sum, Capped;
    SumAppends(delays, delay);
    NoDelays(initial);
    DelayBounds(initial, |delays|);
    DelaySteps(initial, |delays|);
    RoomShrinks(budget - Sum(delays), delay, Capped(initial));
    NotNegative(budget - Sum(delays) - delay, Capped(initial));
  }

  lemma SumAppends(delays: seq<real>, delay: real)
    ensures Sum(delays + [delay]) == Sum(delays) + delay
  {
    assert (delays + [delay])[..|delays|] == delays;
  }

  lemma DelaySteps(initial: real, i: nat)
    ensures Delay(initial, i + 1) == Capped(Delay(initial, i) * 2.0)
  {
  }

  lemma NotNegative(x: real, y: real)
    requires x >= 0.0 && y > 0.0
    ensures x / y >= 0.0
  {
    var quotient := x / y;
    assert quotient * y == x;
    if quotient < 0.0 {
      Scales(quotient, 0.0, y);
    }
  }

  lemma NothingLongerFits(initial: real, budget: real, n: nat)
    requires initial > 0.0 && Sum(Schedule(initial, n)) <= budget < Sum(Schedule(initial, n)) + Delay(initial, n)
    ensures forall m: nat :: Sum(Schedule(initial, m)) <= budget <==> m <= n
  {
    ScheduleStep(initial, n);
    forall m: nat ensures Sum(Schedule(initial, m)) <= budget <==> m <= n {
      if m <= n {
        LongerWaitsMore(initial, m, n);
      } else {
        LongerWaitsMore(initial, n + 1, m);
      }
    }
  }

  // ---- polling ------------------------------------------------------------------------------------

  /** What the reads would return, in order: a payload, nothing yet (404), or a raised error. */
  type Index = nat -> Result<Option<Payload>>

  ghost predicate Published(files: seq<Entry>, index: Index, i: nat) {
    index(i).Ok? && index(i).value.Some? && Parity(files, index(i).value.value)
  }

  /** How a poll ends; a mismatch is the one found at the given read. */
  datatype PollResult = Shown | FetchFailed(fault: Fault) | Unoccupied | Mismatched(read: nat, fault: Fault)

  /** The last of the first `n` reads that returned a payload, if any did. */
  function LastPayload(index: Index, n: nat): (r: Option<nat>)
    requires forall i | 0 <= i < n :: index(i).Ok?
    ensures r.Some? ==> r.value < n && index(r.value).value.Some?
  {
    if n == 0 then None
    else if index(n - 1).value.Some? then Some(n - 1)
    else LastPayload(index, n - 1)
  }

  method PollUntilPublished(files: seq<Entry>, index: Index, delays: seq<real>)
    returns (outcome: PollResult, fetches: nat, slept: seq<real>)
    ensures 1 <= fetches <= |delays| + 1 && slept == delays[..fetches - 1]
    ensures forall i | 0 <= i < fetches - 1 :: index(i).Ok? && !Published(files, index, i)
    ensures outcome.Shown? <==> Published(files, index, fetches - 1)
    ensures outcome.FetchFailed? <==> index(fetches - 1).Raised?
    ensures outcome.FetchFailed? ==> outcome.fault == index(fetches - 1).fault
    ensures outcome.Unoccupied? || outcome.Mismatched? ==> fetches == |delays| + 1 && index(fetches - 1).Ok?
    ensures outcome.Unoccupied? ==> LastPayload(index, fetches) == None
    ensures outcome.Mismatched? ==>
              && LastPayload(index, fetches) == Some(outcome.read)
              && outcome.fault == ParityFault(files, index(outcome.read).value.value)
    ensures (forall i | 0 <= i <= |delays| :: index(i).Ok?) ==>
      (outcome.Shown? <==> exists i | 0 <= i <= |delays| :: Published(files, index, i))
  {
    fetches, slept := 0, [];
    outcome := Unoccupied;
    while true
      invariant fetches <= |delays| && slept == delays[..fetches]
      invariant forall i | 0 <= i < fetches :: index(i).Ok? && !Published(files, index, i)
      invariant outcome.Unoccupied? || outcome.Mismatched?
      invariant outcome.Unoccupied? <==> LastPayload(index, fetches) == None
      invariant outcome.Mismatched? ==>
                  && LastPayload(index, fetches) == Some(outcome.read)
                  && outcome.fault == ParityFault(files, index(outcome.read).value.value)
      decreases |delays| - fetches
    {
      var fetched := index(fetches);
      fetches := fetches + 1;
      if fetched.Raised? {
        outcome := FetchFailed(fetched.fault);
        return;
      }
      if fetched.value.Some? {
        var verified := VerifyHashParity(files, fetched.value.value);
        if verified.Ok? {
          outcome := Shown;
          return;
        }
        outcome := Mismatched(fetches - 1, verified.fault);
      }
      if fetches == |delays| + 1 {
        return;
      }
      slept := slept + [delays[fetches - 1]];
    }
  }

  lemma {:induction false} PartOfTheWait(delays: seq<real>, k: nat)
    requires k <= |delays| && forall i | 0 <= i < |delays| :: delays[i] > 0.0
    ensures Sum(delays[..k]) <= Sum(delays)
    decreases |delays|
  {
    if k < |delays| {
      PartOfTheWait(delays[..|delays| - 1], k);
      assert delays[..|delays| - 1][..k] == delays[..k];
    } else {
      assert delays[..k] == delays;
    }
  }

  /** The post-publish phase: it sleeps no longer than the budget, and at most once before each further read. */
  method VerifyPublished(files: seq<Entry>, index: Index, initial: real, budget: real)
    returns (outcome: PollResult, fetches: nat, slept: seq<real>)
    ensures slept != [] ==> Sum(slept) <= budget
    ensures fetches == |slept| + 1
    ensures slept == Schedule(initial, |slept|)
    ensures outcome.Shown? <==> Published(files, index, fetches - 1)
    ensures forall i | 0 <= i < fetches - 1 :: !Published(files, index, i)
    ensures outcome.Unoccupied? || outcome.Mismatched? ==>
              initial <= 0.0 || Sum(Schedule(initial, |slept| + 1)) > budget
  {
    var delays := BackoffDelays(initial, budget);
    outcome, fetches, slept := PollUntilPublished(files, index, delays);
    if slept != [] {
      PartOfTheWait(delays, fetches - 1);
    }
    assert slept == Schedule(initial, |slept|);
    if (outcome.Unoccupied? || outcome.Mismatched?) && initial > 0.0 {
      assert slept == delays;
      DelayBounds(initial, 0);
      if budget < 0.0 {
        ScheduleStep(initial, 0);
        LongerWaitsMore(initial, 0, |slept| + 1);
      }
    }
  }
}
