/** Scaling the FE in: clamp the replica count so that no follower goes, and drop from the cluster
    exactly the observers whose pods the StatefulSet is about to remove. */
module FeScaleDown {
  import opened Wrappers
  import opened GoStrings
  import opened IntSets
  import PodNames

  // ----- the clamp

  function Min(a: int, b: int): int { if a <= b then a else b }
  function Max(a: int, b: int): int { if a >= b then a else b }

  /** The wanted count, raised to the election number or to the present count, whichever is lower. */
  function Clamp(wanted: int, existing: int, election: int): int {
    Max(wanted, Min(existing, election))
  }

  /** No pod goes, or at least no follower. */
  ghost predicate KeepsFollowers(count: int, existing: int, election: int) { count >= existing || count >= election }

  /** The clamp is the least count, not below the wanted one, that lets no follower go. */
  lemma ClampIsLeast(wanted: int, existing: int, election: int, count: int)
    ensures Clamp(wanted, existing, election) == count
       <==> && wanted <= count && KeepsFollowers(count, existing, election)
            && forall c | wanted <= c < count :: !KeepsFollowers(c, existing, election)
  {
    if wanted < count { assert KeepsFollowers(count - 1, existing, election) || count <= Clamp(wanted, existing, election); }
    var clamp := Clamp(wanted, existing, election);
    if wanted <= clamp < count { assert KeepsFollowers(clamp, existing, election); }
  }

  // ----- numbering the observers

  datatype Frontend = Frontend(host: string, editLogPort: int)

  datatype NumberError = BadOrdinal | IndexOutOfRange

  /** The pod index in a host name, or in the pod name the address maps to. */
  function FrontendNumber(host: string, ips: map<string, string>, template: string): Result<int, NumberError>
    requires template != ""
  {
    var sign := if HasPrefix(host, template) then host else if host in ips then ips[host] else "";
    var pieces := Split(sign, template);
    if |pieces| < 2 then Failure(IndexOutOfRange)
    else
      match TrailingNumber(pieces[1])
      case Some(n) => Success(n)
      case None => Failure(BadOrdinal)
  }

  function SeqNumberMap(frontends: seq<Frontend>, ips: map<string, string>, template: string)
    : Result<map<int, Frontend>, NumberError>
    requires template != ""
  {
    if frontends == [] then Success(map[])
    else
      var fe := frontends[|frontends| - 1];
      var before := SeqNumberMap(frontends[..|frontends| - 1], ips, template);
      if before.Failure? then before
      else
        match FrontendNumber(fe.host, ips, template)
        case Failure(e) => Failure(e)
        case Success(n) => Success(before.value[n := fe])
  }

  /** The name a frontend is numbered by. */
  ghost predicate NumberedBy(sign: string, host: string, ips: map<string, string>, template: string) {
    if HasPrefix(host, template) then sign == host else if host in ips then sign == ips[host] else sign == ""
  }

  /** Cutting at a separator gives back the text before its first occurrence, then the text up to the next. */
  lemma SecondPiece(s: string, sep: string, head: string, piece: string, tail: string)
    requires sep != "" && s == head + sep + piece + tail
    requires forall i: nat | i < |head| :: !OccursAt(s, sep, i)
    requires forall i: nat | i < |piece| :: !OccursAt(piece + tail, sep, i)
    requires if tail == "" then forall i: nat :: !OccursAt(piece, sep, i) else HasPrefix(tail, sep)
    ensures |Split(s, sep)| >= 2 && Split(s, sep)[1] == piece
  {
    hide Split, OccursAt;
    assert s == head + sep + (piece + tail);
    FirstCut(s, sep, head, piece + tail);
    if tail == "" {
      assert piece + tail == piece;
      NoCut(piece, sep);
    } else {
      assert piece + tail == piece + sep + tail[|sep|..];
      FirstCut(piece + tail, sep, piece, tail[|sep|..]);
    }
  }

  /** A frontend whose name lacks the template makes the operator panic; any other is numbered by what
      follows the template's first occurrence. */
  lemma FrontendNumberIff(host: string, ips: map<string, string>, template: string, sign: string, head: string, piece: string, tail: string)
    requires template != "" && NumberedBy(sign, host, ips, template)
    ensures FrontendNumber(host, ips, template) == Failure(IndexOutOfRange) <==> forall i: nat :: !OccursAt(sign, template, i)
    ensures && sign == head + template + piece + tail
            && (forall i: nat | i < |head| :: !OccursAt(sign, template, i))
            && (forall i: nat | i < |piece| :: !OccursAt(piece + tail, template, i))
            && (if tail == "" then forall i: nat :: !OccursAt(piece, template, i) else HasPrefix(tail, template))
       ==> FrontendNumber(host, ips, template)
           == match TrailingNumber(piece) case Some(n) => Success(n) case None => Failure(BadOrdinal)
  {
    hide TrailingNumber, OccursAt;
    if && sign == head + template + piece + tail
       && (forall i: nat | i < |head| :: !OccursAt(sign, template, i))
       && (forall i: nat | i < |piece| :: !OccursAt(piece + tail, template, i))
       && (if tail == "" then forall i: nat :: !OccursAt(piece, template, i) else HasPrefix(tail, template))
    {
      SecondPiece(sign, template, head, piece, tail);
    }
  }

  /** Frontend i carries number n, and no later one does. */
  ghost predicate LastNumbered(frontends: seq<Frontend>, ips: map<string, string>, template: string, i: int, n: int)
    requires template != ""
  {
    && 0 <= i < |frontends| && FrontendNumber(frontends[i].host, ips, template) == Success(n)
    && forall j | i < j < |frontends| :: FrontendNumber(frontends[j].host, ips, template) != Success(n)
  }

  lemma LastNumberedMore(frontends: seq<Frontend>, ips: map<string, string>, template: string, n: int)
    requires template != "" && frontends != []
    ensures var k := |frontends| - 1;
            if FrontendNumber(frontends[k].host, ips, template) == Success(n)
            then forall i :: LastNumbered(frontends, ips, template, i, n) <==> i == k
            else forall i :: LastNumbered(frontends, ips, template, i, n) <==> LastNumbered(frontends[..k], ips, template, i, n)
  {
    hide FrontendNumber;
    assert forall i | 0 <= i < |frontends| - 1 :: frontends[..|frontends| - 1][i] == frontends[i];
  }

  /** The map is built exactly when every frontend has a number; otherwise the first frontend without a number
      decides the error. */
  lemma {:induction false} SeqNumberMapFails(frontends: seq<Frontend>, ips: map<string, string>, template: string)
    requires template != ""
    ensures SeqNumberMap(frontends, ips, template).Success?
       <==> forall i | 0 <= i < |frontends| :: FrontendNumber(frontends[i].host, ips, template).Success?
    ensures forall i | 0 <= i < |frontends|
                       && (forall j | 0 <= j < i :: FrontendNumber(frontends[j].host, ips, template).Success?)
                       && FrontendNumber(frontends[i].host, ips, template).Failure? ::
              SeqNumberMap(frontends, ips, template) == Failure(FrontendNumber(frontends[i].host, ips, template).error)
  {
    hide FrontendNumber;
    if frontends != [] {
      var before := frontends[..|frontends| - 1];
      SeqNumberMapFails(before, ips, template);
      assert forall i | 0 <= i < |before| :: before[i] == frontends[i];
    }
  }

  /** The map keeps the last frontend of each number, and nothing else. */
  lemma {:induction false} SeqNumberMapIff(frontends: seq<Frontend>, ips: map<string, string>, template: string, n: int, fe: Frontend)
    requires template != "" && SeqNumberMap(frontends, ips, template).Success?
    ensures var numbered := SeqNumberMap(frontends, ips, template).value;
            n in numbered && numbered[n] == fe <==> exists i :: LastNumbered(frontends, ips, template, i, n) && frontends[i] == fe
  {
    if frontends != [] {
      var k := |frontends| - 1;
      SeqNumberMapIff(frontends[..k], ips, template, n, fe);
      LastNumberedMore(frontends, ips, template, n);
      hide LastNumbered, FrontendNumber;
      if FrontendNumber(frontends[k].host, ips, template) == Success(n) {
        assert LastNumbered(frontends, ips, template, k, n);
      } else {
        LastNumberedInside(frontends, ips, template, n);
      }
    }
  }

  lemma LastNumberedInside(frontends: seq<Frontend>, ips: map<string, string>, template: string, n: int)
    requires template != "" && frontends != []
    ensures forall i | LastNumbered(frontends[..|frontends| - 1], ips, template, i, n) ::
              0 <= i < |frontends| - 1 && frontends[..|frontends| - 1][i] == frontends[i]
  {
    var before := frontends[..|frontends| - 1];
    forall i | LastNumbered(before, ips, template, i, n) ensures 0 <= i < |before| && before[i] == frontends[i] {}
  }

  lemma {:induction false} NumberingFails(frontends: seq<Frontend>, k: nat, ips: map<string, string>, template: string)
    requires template != "" && k <= |frontends| && SeqNumberMap(frontends[..k], ips, template).Failure?
    ensures SeqNumberMap(frontends, ips, template) == SeqNumberMap(frontends[..k], ips, template)
    decreases |frontends|
  {
    if k == |frontends| {
      assert frontends[..k] == frontends;
    } else {
      assert frontends[..|frontends| - 1][..k] == frontends[..k];
      NumberingFails(frontends[..|frontends| - 1], k, ips, template);
    }
  }

  method BuildSeqNumberToFrontendMap(frontends: seq<Frontend>, ips: map<string, string>, template: string)
    returns (r: Result<map<int, Frontend>, NumberError>)
    requires template != ""
    ensures r == SeqNumberMap(frontends, ips, template)
  {
    hide FrontendNumber;
    var numbered: map<int, Frontend> := map[];
    for k := 0 to |frontends|
      invariant SeqNumberMap(frontends[..k], ips, template) == Success(numbered)
    {
      assert frontends[..k + 1][..k] == frontends[..k];
      var number := FrontendNumber(frontends[k].host, ips, template);
      if number.Failure? {
        NumberingFails(frontends, k + 1, ips, template);
        return Failure(number.error);
      }
      numbered := numbered[number.value := frontends[k]];
    }
    assert frontends[..|frontends|] == frontends;
    r := Success(numbered);
  }

  lemma TrailingNumberOf(n: nat, rest: string)
    requires n < INT64_BOUND
    ensures TrailingNumber("-" + Decimal(n)) == Some(n) == TrailingNumber("-" + Decimal(n) + "." + rest)
  {
    TrailingNumberIs("-", Decimal(n), "");
    TrailingNumberIs("-", Decimal(n), "." + rest);
    assert "-" + Decimal(n) + "" == "-" + Decimal(n) && "-" + Decimal(n) + ("." + rest) == "-" + Decimal(n) + "." + rest;
    ParseIntOfDecimal(n, INT64_BOUND);
  }

  /** The template does not recur before the end of the number: it has a character that "-n" lacks. */
  lemma NumberBeforeNextTemplate(template: string, n: nat, suffix: string)
    requires '.' !in template && exists c :: c in template && c != '-' && !IsDigit(c)
    requires suffix == "" || suffix[0] == '.'
    ensures var number := "-" + Decimal(n);
            var first := Split(number + suffix, template)[0];
            first == number || (|first| > |number| && first == number + "." + first[|number| + 1..])
  {
    var number := "-" + Decimal(n);
    var rest := number + suffix;
    var dot := |number|;
    var c :| c in template && c != '-' && !IsDigit(c);
    var m :| 0 <= m < |template| && template[m] == c;
    forall i: nat | i <= dot ensures !OccursAt(rest, template, i) {
      if i + |template| <= |rest| {
        if i + |template| > dot {
          assert rest[i..i + |template|][dot - i] == '.';
        } else {
          assert rest[i..i + |template|][m] == number[i + m];
          assert number[i + m] == '-' || IsDigit(number[i + m]);
        }
      }
    }
    var at := IndexFrom(rest, template, 0);
    if at.Some? {
      assert rest[..at.value] == number + "." + rest[..at.value][dot + 1..];
    } else if suffix == "" {
      assert rest == number;
    } else {
      assert rest == number + "." + rest[dot + 1..];
    }
  }

  lemma SplitAtPrefix(template: string, rest: string)
    requires template != ""
    ensures Split(template + rest, template) == [""] + Split(rest, template)
  {
    var s := template + rest;
    assert OccursAt(s, template, 0);
    assert s[|template|..] == rest;
    assert s[..0] == "";
  }

  /** Pod n of the template is numbered n, by its host name or through its address, when the template
      has no dot and has a character that cannot be part of "-n". */
  lemma FrontendNumberOfPod(template: string, n: nat, host: string, suffix: string, ips: map<string, string>)
    requires n < INT64_BOUND && '.' !in template && exists c :: c in template && c != '-' && !IsDigit(c)
    requires suffix == "" || suffix[0] == '.'
    requires host == PodNames.PodName(template, n) + suffix
          || (!HasPrefix(host, template) && host in ips && ips[host] == PodNames.PodName(template, n) + suffix)
    ensures FrontendNumber(host, ips, template) == Success(n)
  {
    hide TrailingNumber, Split;
    var number := "-" + Decimal(n);
    var sign := PodNames.PodName(template, n) + suffix;
    assert sign == template + (number + suffix);
    assert HasPrefix(sign, template);
    SplitAtPrefix(template, number + suffix);
    NumberBeforeNextTemplate(template, n, suffix);
    var first := Split(number + suffix, template)[0];
    TrailingNumberOf(n, if first == number then "" else first[|number| + 1..]);
  }

  // ----- choosing the observers to drop

  function InsertKey(key: int, sorted: seq<int>): seq<int> {
    if sorted == [] || key > sorted[0] then [key] + sorted else [sorted[0]] + InsertKey(key, sorted[1..])
  }

  /** sort.Slice, highest first. */
  function SortKeys(keys: seq<int>): seq<int> {
    if keys == [] then [] else InsertKey(keys[|keys| - 1], SortKeys(keys[..|keys| - 1]))
  }

  ghost predicate Descending(keys: seq<int>) {
    forall i, j | 0 <= i < j < |keys| :: keys[i] > keys[j]
  }

  /** keys lists the elements of s, highest first. */
  ghost predicate Enumerates(keys: seq<int>, s: set<int>) {
    Descending(keys) && |keys| == |s| && forall k :: k in keys <==> k in s
  }

  lemma {:induction false} InsertKeyMembers(key: int, sorted: seq<int>)
    ensures |InsertKey(key, sorted)| == |sorted| + 1
    ensures forall k :: k in InsertKey(key, sorted) <==> k == key || k in sorted
  {
    if !(sorted == [] || key > sorted[0]) {
      InsertKeyMembers(key, sorted[1..]);
      assert sorted == [sorted[0]] + sorted[1..];
    }
  }

  lemma {:induction false} InsertKeyDescends(key: int, sorted: seq<int>)
    requires Descending(sorted) && key !in sorted
    ensures Descending(InsertKey(key, sorted))
  {
    if !(sorted == [] || key > sorted[0]) {
      var rest := InsertKey(key, sorted[1..]);
      InsertKeyDescends(key, sorted[1..]);
      InsertKeyMembers(key, sorted[1..]);
      forall i | 0 <= i < |rest| ensures sorted[0] > rest[i] {
        assert rest[i] in rest;
        if j :| 0 <= j < |sorted[1..]| && sorted[1..][j] == rest[i] { assert sorted[j + 1] == rest[i]; }
      }
    }
  }

  lemma {:induction false} SortKeysEnumerates(keys: seq<int>, s: set<int>)
    requires |keys| == |s| && (forall k :: k in keys <==> k in s)
    requires forall i, j | 0 <= i < j < |keys| :: keys[i] != keys[j]
    ensures Enumerates(SortKeys(keys), s)
  {
    if keys != [] {
      var k := |keys| - 1;
      var before := keys[..k];
      assert keys == before + [keys[k]];
      assert keys[k] in s;
      forall x ensures x in before <==> x in s - {keys[k]} {
        if x in before { var i :| 0 <= i < k && before[i] == x; assert keys[i] == x; assert x in keys; }
        if x in s && x != keys[k] { assert x in keys; }
      }
      SortKeysEnumerates(before, s - {keys[k]});
      InsertKeyMembers(keys[k], SortKeys(before));
      InsertKeyDescends(keys[k], SortKeys(before));
    }
  }

  ghost predicate HasAll(keys: seq<int>, numbered: map<int, Frontend>) {
    forall i | 0 <= i < |keys| :: keys[i] in numbered
  }

  /** The frontends of the first `amount` keys. */
  ghost function Chosen(keys: seq<int>, numbered: map<int, Frontend>, amount: nat): seq<Frontend>
    requires amount <= |keys| && HasAll(keys, numbered)
  {
    seq(amount, i requires 0 <= i < amount => numbered[keys[i]])
  }

  lemma EnumeratedAll(keys: seq<int>, numbered: map<int, Frontend>)
    requires Enumerates(keys, numbered.Keys)
    ensures HasAll(keys, numbered) && Chosen(keys, numbered, 0) == []
  {
    assert forall i | 0 <= i < |keys| :: keys[i] in keys;
  }

  lemma ChosenMore(keys: seq<int>, numbered: map<int, Frontend>, amount: nat)
    requires amount < |keys| && HasAll(keys, numbered)
    ensures Chosen(keys, numbered, amount + 1) == Chosen(keys, numbered, amount) + [numbered[keys[amount]]]
  {
  }

  /** top lists the frontends with the `amount` highest numbers, highest first. */
  ghost predicate TopObservers(numbered: map<int, Frontend>, amount: nat, top: seq<Frontend>)
    requires amount <= |numbered|
  {
    exists keys :: Enumerates(keys, numbered.Keys) && HasAll(keys, numbered) && top == Chosen(keys, numbered, amount)
  }

  method FindNeedDeletedObservers(numbered: map<int, Frontend>, amount: int) returns (top: seq<Frontend>)
    ensures amount > |numbered| ==> top == []
    ensures amount <= |numbered| ==> TopObservers(numbered, Max(amount, 0), top)
  {
    top := [];
    if amount > |numbered| { return; }
    var keys: seq<int> := [];
    var left: set<int> := numbered.Keys;
    while left != {}
      invariant left <= numbered.Keys
      invariant |keys| + |left| == |numbered.Keys|
      invariant forall k :: k in keys <==> k in numbered.Keys - left
      invariant forall i, j | 0 <= i < j < |keys| :: keys[i] != keys[j]
      decreases |left|
    {
      SomeElement(left);
      var k :| k in left;
      keys := keys + [k];
      left := left - {k};
    }
    SortKeysEnumerates(keys, numbered.Keys);
    keys := SortKeys(keys);
    EnumeratedAll(keys, numbered);
    hide Chosen, SortKeys, Descending;
    for i := 0 to Max(amount, 0)
      invariant HasAll(keys, numbered) && top == Chosen(keys, numbered, i)
    {
      ChosenMore(keys, numbered, i);
      top := top + [numbered[keys[i]]];
    }
  }

  /** The frontends to drop; IndexOutOfRange stands for the panic on a name without the template. Nothing
      is dropped when there is no surplus or a name has no number. */
  ghost predicate DropsSurplus(observers: seq<Frontend>, ips: map<string, string>, template: string, replicas: int,
                               election: int, r: Result<seq<Frontend>, NumberError>)
    requires template != ""
  {
    var amount, numbered := |observers| - replicas + election, SeqNumberMap(observers, ips, template);
    if amount <= 0 || numbered == Failure(BadOrdinal) then r == Success([])
    else if numbered.Failure? then r == Failure(IndexOutOfRange)
    else if amount > |numbered.value| then r == Success([])
    else r.Success? && TopObservers(numbered.value, amount, r.value)
  }

  datatype FePod = FePod(name: string, ip: string)

  /** The pods of the template by address; the last one with an address wins. */
  function Addresses(pods: seq<FePod>, template: string): map<string, string> {
    if pods == [] then map[]
    else
      var before, pod := Addresses(pods[..|pods| - 1], template), pods[|pods| - 1];
      if HasPrefix(pod.name, template) then before[pod.ip := pod.name] else before
  }

  /** Pod i has the address and the template's prefix, and no later such pod has the address. */
  ghost predicate LastAt(pods: seq<FePod>, template: string, i: int, ip: string) {
    && 0 <= i < |pods| && pods[i].ip == ip && |template| <= |pods[i].name| && pods[i].name[..|template|] == template
    && forall j | i < j < |pods| && pods[j].ip == ip ::
         |template| > |pods[j].name| || pods[j].name[..|template|] != template
  }

  lemma LastAtMore(pods: seq<FePod>, template: string, ip: string)
    requires pods != []
    ensures var k := |pods| - 1;
            if pods[k].ip == ip && HasPrefix(pods[k].name, template) then forall i :: LastAt(pods, template, i, ip) <==> i == k
            else forall i :: LastAt(pods, template, i, ip) <==> LastAt(pods[..k], template, i, ip)
    ensures forall i | LastAt(pods[..|pods| - 1], template, i, ip) :: 0 <= i < |pods| - 1 && pods[..|pods| - 1][i] == pods[i]
  {
    var before := pods[..|pods| - 1];
    assert forall i | 0 <= i < |before| :: before[i] == pods[i];
    forall i | LastAt(before, template, i, ip) ensures 0 <= i < |before| && before[i] == pods[i] {}
  }

  /** An address leads to the name of the last pod of the template that has it. */
  lemma {:induction false} AddressIff(pods: seq<FePod>, template: string, ip: string, name: string)
    ensures ip in Addresses(pods, template) && Addresses(pods, template)[ip] == name
       <==> exists i :: LastAt(pods, template, i, ip) && pods[i].name == name
  {
    if pods != [] {
      var k := |pods| - 1;
      AddressIff(pods[..k], template, ip, name);
      LastAtMore(pods, template, ip);
      hide LastAt, HasPrefix;
      if pods[k].ip == ip && HasPrefix(pods[k].name, template) { assert LastAt(pods, template, k, ip); }
    }
  }

  /** What the FE and Kubernetes answer: the observer list, the pod list for an FE that registers by
      address, and whether the DROP statements are refused. */
  datatype FeAnswers = FeAnswers(
    connected: bool,
    observers: Option<seq<Frontend>>,
    fqdn: bool,
    pods: Option<seq<FePod>>,
    dropRefused: bool)

  datatype DropError = NotConnected | ObserversUnread | Panicked | Refused

  /** The frontends named in DROP statements, and the error returned. */
  datatype Drop = Drop(asked: seq<Frontend>, error: Option<DropError>)

  const NO_DROP := Drop([], None)

  function KnownAddresses(answers: FeAnswers, template: string): map<string, string> {
    if answers.fqdn || answers.pods.None? then map[] else Addresses(answers.pods.value, template)
  }

  /** The outcome of a scale-in's drop: a failed pod list, like a name without a number, drops nothing and
      is no error. */
  ghost predicate DropsFor(answers: FeAnswers, template: string, replicas: int, election: int, d: Drop)
    requires template != ""
  {
    if !answers.connected then d == Drop([], Some(NotConnected))
    else if answers.observers.None? then d == Drop([], Some(ObserversUnread))
    else
      var observers := answers.observers.value;
      if |observers| - replicas + election <= 0 then d == NO_DROP
      else if !answers.fqdn && answers.pods.None? then d == NO_DROP
      else
        if d.error == Some(Panicked) then
          d.asked == []
          && DropsSurplus(observers, KnownAddresses(answers, template), template, replicas, election, Failure(IndexOutOfRange))
        else
          && DropsSurplus(observers, KnownAddresses(answers, template), template, replicas, election, Success(d.asked))
          && d.error == if d.asked != [] && answers.dropRefused then Some(Refused) else None
  }

  datatype FePhase = Available | Restarting | OtherPhase

  /** The FE's wanted count and phase; the cluster object is changed in place. */
  class FeCluster {
    var replicas: Option<int>
    var phase: FePhase

    constructor (replicas: Option<int>, phase: FePhase)
      ensures this.replicas == replicas && this.phase == phase
    {
      this.replicas, this.phase := replicas, phase;
    }

    /** Observers may go; followers may not. */
    method SafeScaleDown(election: int, existing: int)
      requires replicas.Some?
      modifies this`replicas
      ensures replicas == Some(Clamp(old(replicas).value, existing, election))
    {
      if replicas.value >= existing { return; }
      if replicas.value >= election { return; }
      if existing >= election { replicas := Some(election); } else { replicas := Some(existing); }
    }

    /** Drop the surplus over the count now wanted. */
    method DropObserver(answers: FeAnswers, template: string, election: int) returns (d: Drop)
      requires template != "" && replicas.Some?
      ensures DropsFor(answers, template, replicas.value, election, d)
    {
      hide SeqNumberMap;
      if !answers.connected { return Drop([], Some(NotConnected)); }
      if answers.observers.None? { return Drop([], Some(ObserversUnread)); }
      var observers := answers.observers.value;
      var amount := |observers| - replicas.value + election;
      if amount <= 0 { return NO_DROP; }
      var ips: map<string, string> := map[];
      if !answers.fqdn {
        if answers.pods.None? { return NO_DROP; }
        ips := PodAddresses(answers.pods.value, template);
      }
      var numbered := BuildSeqNumberToFrontendMap(observers, ips, template);
      if numbered.Failure? {
        return if numbered.error == BadOrdinal then NO_DROP else Drop([], Some(Panicked));
      }
      var top := FindNeedDeletedObservers(numbered.value, amount);
      return Drop(top, if top != [] && answers.dropRefused then Some(Refused) else None);
    }

    /** Before an apply over a StatefulSet of `existing` pods, if there is one: clamp, then drop for a
        scale-in, else take note of a due restart. */
    method PrepareStatefulsetApply(existing: Option<int>, answers: FeAnswers, template: string, election: int,
                                   wasAvailable: bool, restartDue: bool)
      returns (d: Drop)
      requires template != ""
      modifies this
      ensures existing.None? ==> replicas == old(replicas) && phase == old(phase) && d == NO_DROP
      ensures existing.Some? ==>
                && replicas == Some(Clamp(if old(replicas).Some? then old(replicas).value else 0, existing.value, election))
                && if replicas.value < existing.value then
                     DropsFor(answers, template, replicas.value, election, d) && phase == old(phase)
                   else
                     d == NO_DROP && phase == if wasAvailable && restartDue then Restarting else old(phase)
    {
      hide DropsFor;
      d := NO_DROP;
      if existing.None? { return; }
      if replicas.None? { replicas := Some(0); }
      SafeScaleDown(election, existing.value);
      if replicas.value < existing.value {
        d := DropObserver(answers, template, election);
        return;
      }
      if wasAvailable && restartDue { phase := Restarting; }
    }
  }

  method PodAddresses(pods: seq<FePod>, template: string) returns (ips: map<string, string>)
    ensures ips == Addresses(pods, template)
  {
    ips := map[];
    for k := 0 to |pods|
      invariant ips == Addresses(pods[..k], template)
    {
      assert pods[..k + 1][..k] == pods[..k];
      if HasPrefix(pods[k].name, template) { ips := ips[pods[k].ip := pods[k].name]; }
    }
    assert pods[..|pods|] == pods;
  }

  // ----- the dropped observers are the removed pods

  /** The observers are pods low..high-1, each once. */
  ghost predicate Consecutive(numbered: map<int, Frontend>, low: int, high: int) {
    forall k :: k in numbered <==> low <= k < high
  }

  lemma {:induction false} ConsecutiveDescends(keys: seq<int>, s: set<int>, low: int, high: int, i: nat)
    requires Enumerates(keys, s) && (forall k :: k in s <==> low <= k < high) && i < |keys|
    ensures keys[i] == high - 1 - i
  {
    assert keys[i] in keys;
    if i == 0 {
      assert high - 1 in keys;
      var j :| 0 <= j < |keys| && keys[j] == high - 1;
    } else {
      ConsecutiveDescends(keys, s, low, high, i - 1);
      var below := high - 1 - i;
      assert below in s by { assert keys[i] < keys[i - 1]; }
      var j :| 0 <= j < |keys| && keys[j] == below;
      if j < i { assert keys[j] >= keys[i - 1]; }
    }
  }

  /** The observers are pods low..high-1, each listed once. */
  ghost predicate ObserversArePods(observers: seq<Frontend>, ips: map<string, string>, template: string, low: int, high: int)
    requires template != ""
  {
    && |observers| == high - low
    && (forall i | 0 <= i < |observers| ::
          var n := FrontendNumber(observers[i].host, ips, template);
          n.Success? && low <= n.value < high)
    && (forall i, j | 0 <= i < j < |observers| ::
          FrontendNumber(observers[i].host, ips, template) != FrontendNumber(observers[j].host, ips, template))
  }

  ghost predicate HasNumber(observers: seq<Frontend>, ips: map<string, string>, template: string, k: nat, n: int)
    requires template != "" && k <= |observers|
  {
    exists i :: 0 <= i < k && FrontendNumber(observers[i].host, ips, template) == Success(n)
  }

  /** Building the map keeps each observer under its own number. */
  lemma {:induction false} NumberedMembers(observers: seq<Frontend>, ips: map<string, string>, template: string, k: nat)
    requires template != "" && k <= |observers|
    requires forall i | 0 <= i < |observers| :: FrontendNumber(observers[i].host, ips, template).Success?
    requires forall i, j | 0 <= i < j < |observers| ::
      FrontendNumber(observers[i].host, ips, template) != FrontendNumber(observers[j].host, ips, template)
    ensures var r := SeqNumberMap(observers[..k], ips, template);
            && r.Success? && |r.value| == k
            && (forall n | n in r.value ::
                  r.value[n] in observers && FrontendNumber(r.value[n].host, ips, template) == Success(n))
            && (forall n | n in r.value :: HasNumber(observers, ips, template, k, n))
  {
    hide FrontendNumber;
    if k > 0 {
      NumberedMembers(observers, ips, template, k - 1);
      assert observers[..k][..k - 1] == observers[..k - 1];
      var n := FrontendNumber(observers[k - 1].host, ips, template);
      var before := SeqNumberMap(observers[..k - 1], ips, template).value;
      assert forall i | 0 <= i < k - 1 :: FrontendNumber(observers[i].host, ips, template) != n;
      assert !HasNumber(observers, ips, template, k - 1, n.value);
      forall x | x == n.value || x in before ensures HasNumber(observers, ips, template, k, x) {
        if x == n.value { assert FrontendNumber(observers[k - 1].host, ips, template) == Success(x); }
        else { assert HasNumber(observers, ips, template, k - 1, x); }
      }
    }
  }

  lemma TopIsRemovedPods(numbered: map<int, Frontend>, top: seq<Frontend>, election: int, replicas: int, m: int)
    requires election <= replicas <= m && Consecutive(numbered, election, m) && |numbered| == m - election
    requires TopObservers(numbered, m - replicas, top)
    ensures |top| == m - replicas && forall i | 0 <= i < m - replicas :: top[i] == numbered[m - 1 - i]
  {
    var keys :| Enumerates(keys, numbered.Keys) && HasAll(keys, numbered) && top == Chosen(keys, numbered, m - replicas);
    forall i | 0 <= i < m - replicas ensures top[i] == numbered[m - 1 - i] {
      ConsecutiveDescends(keys, numbered.Keys, election, m, i);
    }
  }

  /** The surplus over `replicas` is made up of the pods from there on. */
  lemma SurplusIsRemovedPods(observers: seq<Frontend>, ips: map<string, string>, template: string, replicas: int,
                             election: int, m: int, r: Result<seq<Frontend>, NumberError>)
    requires template != "" && election <= replicas <= m && ObserversArePods(observers, ips, template, election, m)
    requires DropsSurplus(observers, ips, template, replicas, election, r)
    ensures r.Success? && |r.value| == m - replicas
    ensures forall i | 0 <= i < m - replicas ::
              r.value[i] in observers && FrontendNumber(r.value[i].host, ips, template) == Success(m - 1 - i)
  {
    hide FrontendNumber, SeqNumberMap, TopObservers;
    NumberedMembers(observers, ips, template, |observers|);
    assert observers[..|observers|] == observers;
    var numbered := SeqNumberMap(observers, ips, template).value;
    FillsRange(numbered.Keys, election, m);
    if m > replicas {
      TopIsRemovedPods(numbered, r.value, election, replicas, m);
    }
  }

  /** A drop is attempted only for a scale-in that keeps the followers. When the FE's observers are then the
      pods from the election number up to m - 1, the frontends asked to go are exactly those of pods m - 1
      down to the new count: the pods the StatefulSet removes. A retry after some drops took effect is the
      same statement with a smaller m. */
  lemma DropsExactlyRemovedPods(wanted: int, existing: int, election: int, m: int, answers: FeAnswers, template: string, d: Drop)
    requires var replicas := Clamp(wanted, existing, election); replicas < existing && replicas <= m
    requires answers.connected && answers.observers.Some? && (answers.fqdn || answers.pods.Some?)
    requires template != ""
    requires ObserversArePods(answers.observers.value, KnownAddresses(answers, template), template, election, m)
    requires DropsFor(answers, template, Clamp(wanted, existing, election), election, d)
    ensures var replicas, ips := Clamp(wanted, existing, election), KnownAddresses(answers, template);
            && election <= replicas && wanted <= replicas
            && |d.asked| == m - replicas
            && (forall i | 0 <= i < m - replicas ::
                  d.asked[i] in answers.observers.value && FrontendNumber(d.asked[i].host, ips, template) == Success(m - 1 - i))
            && (d.error == if m > replicas && answers.dropRefused then Some(Refused) else None)
  {
    hide FrontendNumber, DropsSurplus, KnownAddresses;
    var replicas, observers, ips := Clamp(wanted, existing, election), answers.observers.value, KnownAddresses(answers, template);
    if m > replicas {
      SurplusIsRemovedPods(observers, ips, template, replicas, election, m,
                           if d.error == Some(Panicked) then Failure(IndexOutOfRange) else Success(d.asked));
    }
  }
}
