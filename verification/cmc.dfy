/** The contract selection of cmc_data_collector.py: the loop of
    `get_newly_added_eth_contracts` over a CoinMarketCap listing (lines
    16-19 and 52-81) and the validator for lines of the contracts file
    (lines 96-100). */
module CmcSelection {
  import opened Common
  import opened Text
  import opened Python

  /** At most this many new contracts are collected (line 58). */
  const NewContractLimit: nat := 10

  /** Python's `x == 0` for a JSON value: `0`, `0.0` and `False` all equal 0. */
  predicate EqualsZero(v: PyValue)
  {
    v == PyInt(0) || v == PyFloat(0.0) || v == PyBool(false)
  }

  /** Lines 61-68 for one listed coin: the contract address it offers, if
      any. A coin that is not a dictionary, or whose truthy platform is not
      one, makes a `.get` call raise `AttributeError`. */
  function CoinCandidate(coin: PyValue): (r: Result<Option<PyValue>, PyError>)
    ensures r == Err(AttributeError) <==>
              !coin.PyDict? || (Truthy(Get(coin.entries, "platform")) && !Get(coin.entries, "platform").PyDict?)
    ensures r.Ok? && r.value.Some? ==>
              && Truthy(r.value.value)
              && Get(coin.entries, "platform").PyDict?
              && Get(Get(coin.entries, "platform").entries, "name") == PyStr("Ethereum")
              && Get(Get(coin.entries, "platform").entries, "token_address") == r.value.value
    ensures r.Ok? && r.value.None? ==>
              !Get(coin.entries, "platform").PyDict?
              || Get(Get(coin.entries, "platform").entries, "name") != PyStr("Ethereum")
              || !Truthy(Get(Get(coin.entries, "platform").entries, "token_address"))
  {
    if !coin.PyDict? then Err(AttributeError)
    else
      var platform := Get(coin.entries, "platform");
      if !Truthy(platform) then Ok(None)
      else if !platform.PyDict? then Err(AttributeError)
      else if Get(platform.entries, "name") != PyStr("Ethereum") then Ok(None)
      else
        var address := Get(platform.entries, "token_address");
        if Truthy(address) then Ok(Some(address)) else Ok(None)
  }

  /** The addresses the well-formed coins of `coins` offer, in listing
      order. */
  function Candidates(coins: seq<PyValue>): (r: seq<PyValue>)
    ensures forall a :: a in r ==> exists j :: 0 <= j < |coins| && CoinCandidate(coins[j]) == Ok(Some(a))
  {
    if |coins| == 0 then []
    else
      var init := coins[..|coins| - 1];
      var rest := Candidates(init);
      assert forall j :: 0 <= j < |init| ==> init[j] == coins[j];
      match CoinCandidate(coins[|coins| - 1])
      case Ok(Some(a)) => rest + [a]
      case _ => rest
  }

  /** Line 53: `data.get("data", [])` as the list the loop walks. A non-empty
      dictionary or string iterates as strings, and the first `coin.get`
      raises; any other non-list value is not iterable. */
  function Coins(data: map<string, PyValue>): (r: Result<seq<PyValue>, PyError>)
    ensures "data" !in data ==> r == Ok([])
    ensures "data" in data && data["data"].PyList? ==> r == Ok(data["data"].items)
    ensures r.Ok? ==> "data" !in data || data["data"].PyList? || !Truthy(data["data"])
  {
    if "data" !in data then Ok([])
    else match data["data"]
      case PyList(items) => Ok(items)
      case PyDict(entries) => if |entries| == 0 then Ok([]) else Err(AttributeError)
      case PyStr(s) => if |s| == 0 then Ok([]) else Err(AttributeError)
      case _ => Err(TypeError)
  }

  /** Line 52: a truthy status whose `error_code` equals 0. */
  predicate StatusOk(data: map<string, PyValue>)
  {
    var status := Get(data, "status");
    Truthy(status) && status.PyDict? && EqualsZero(Get(status.entries, "error_code"))
  }

  /** Lines 52 and 78 call `.get` on a present status: a truthy status that
      is not a dictionary raises on line 52, a falsy one (`None`, `""`, `0`,
      `[]`) on line 78. */
  predicate StatusRaises(data: map<string, PyValue>)
  {
    "status" in data && !data["status"].PyDict?
  }

  /** The addresses a selection added after the existing ones. */
  function Added(contracts: seq<PyValue>, existing: seq<string>): seq<PyValue>
    requires |existing| <= |contracts|
  {
    contracts[|existing|..]
  }

  lemma AddedAppend(contracts: seq<PyValue>, existing: seq<string>, a: PyValue)
    requires |existing| <= |contracts|
    ensures Added(contracts + [a], existing) == Added(contracts, existing) + [a]
    ensures (contracts + [a])[..|existing|] == contracts[..|existing|]
  {
  }

  /** The existing contracts as listed values. */
  function AsValues(existing: seq<string>): (r: seq<PyValue>)
    ensures |r| == |existing| && forall i :: 0 <= i < |r| ==> r[i] == PyStr(existing[i])
  {
    seq(|existing|, i requires 0 <= i < |existing| => PyStr(existing[i]))
  }

  /** A subsequence of the candidates of a prefix of the listing is one of
      the candidates of the whole listing. */
  lemma {:induction false} CandidatesPrefix(a: seq<PyValue>, coins: seq<PyValue>, i: nat)
    requires i <= |coins| && IsSubseq(a, Candidates(coins[..i]))
    ensures IsSubseq(a, Candidates(coins))
    decreases |coins| - i
  {
    if i == |coins| {
      assert coins[..i] == coins;
    } else {
      assert coins[..i + 1][..i] == coins[..i];
      match CoinCandidate(coins[i]) {
        case Ok(Some(x)) =>
          SubseqExtend(a, Candidates(coins[..i]), x);
        case _ =>
      }
      CandidatesPrefix(a, coins, i + 1);
    }
  }

  lemma CandidatesStep(coins: seq<PyValue>, i: nat)
    requires i < |coins|
    ensures CoinCandidate(coins[i]).Ok? && CoinCandidate(coins[i]).value.Some? ==>
              Candidates(coins[..i + 1]) == Candidates(coins[..i]) + [CoinCandidate(coins[i]).value.value]
    ensures !(CoinCandidate(coins[i]).Ok? && CoinCandidate(coins[i]).value.Some?) ==>
              Candidates(coins[..i + 1]) == Candidates(coins[..i])
  {
    assert coins[..i + 1][..i] == coins[..i];
  }

  /** What the loop keeps true of `contracts` after looking at coins whose
      candidates are `seen`. */
  predicate Selection(contracts: seq<PyValue>, existing: seq<string>, seen: seq<PyValue>)
  {
    && |existing| <= |contracts| <= |existing| + NewContractLimit
    && contracts[..|existing|] == AsValues(existing)
    && NoDuplicates(contracts)
    && IsSubseq(Added(contracts, existing), seen)
    && (forall a :: a in seen ==> a in contracts)
  }

  /** Lines 66-73 keep the selection invariant: a new address is appended,
      one already present is skipped. */
  lemma SelectionStep(contracts: seq<PyValue>, existing: seq<string>, seen: seq<PyValue>, address: PyValue)
    requires Selection(contracts, existing, seen) && |contracts| < |existing| + NewContractLimit
    ensures var next := if address !in contracts then contracts + [address] else contracts;
            Selection(next, existing, seen + [address])
  {
    if address !in contracts {
      AddedAppend(contracts, existing, address);
      SubseqAppendBoth(Added(contracts, existing), seen, address);
    } else {
      SubseqExtend(Added(contracts, existing), seen, address);
    }
  }

  /** The contracts after offering each address of `seen`, in order, to
      lines 68-69 with no cap: an address not yet present is appended. */
  function Pick(contracts: seq<PyValue>, seen: seq<PyValue>): (r: seq<PyValue>)
    ensures |contracts| <= |r| <= |contracts| + |seen| && r[..|contracts|] == contracts
    ensures NoDuplicates(contracts) ==> NoDuplicates(r)
  {
    if |seen| == 0 then contracts
    else
      var p := Pick(contracts, seen[..|seen| - 1]);
      if seen[|seen| - 1] in p then p
      else
        assert (p + [seen[|seen| - 1]])[..|contracts|] == p[..|contracts|];
        p + [seen[|seen| - 1]]
  }

  /** The uncapped selection holds exactly the starting contracts and the
      offered addresses. */
  lemma {:induction false} PickMembers(contracts: seq<PyValue>, seen: seq<PyValue>)
    ensures forall a :: a in Pick(contracts, seen) <==> a in contracts || a in seen
  {
    if |seen| > 0 {
      var init := seen[..|seen| - 1];
      PickMembers(contracts, init);
      assert seen == init + [seen[|seen| - 1]];
    }
  }

  lemma PickAppend(contracts: seq<PyValue>, seen: seq<PyValue>, a: PyValue)
    ensures Pick(contracts, seen + [a]) == if a in Pick(contracts, seen) then Pick(contracts, seen) else Pick(contracts, seen) + [a]
  {
    assert (seen + [a])[..|seen|] == seen;
  }

  /** The uncapped selection only grows as the loop moves along the listing. */
  lemma {:induction false} PickGrows(contracts: seq<PyValue>, coins: seq<PyValue>, i: nat, j: nat)
    requires i <= j <= |coins|
    ensures |Pick(contracts, Candidates(coins[..i]))| <= |Pick(contracts, Candidates(coins[..j]))|
    decreases j - i
  {
    if i < j {
      var k := j - 1;
      PickGrows(contracts, coins, i, k);
      PickStep(contracts, coins, k);
      assert k + 1 == j;
    }
  }

  lemma PickStep(contracts: seq<PyValue>, coins: seq<PyValue>, j: nat)
    requires j < |coins|
    ensures |Pick(contracts, Candidates(coins[..j]))| <= |Pick(contracts, Candidates(coins[..j + 1]))|
  {
    CandidatesStep(coins, j);
    match CoinCandidate(coins[j]) {
      case Ok(Some(a)) => PickAppend(contracts, Candidates(coins[..j]), a);
      case _ =>
    }
  }

  /** Coin `j` reaches line 61 and raises there: every coin before it was
      well formed and the cap had not been reached. */
  predicate ErrorBeforeCap(existing: seq<string>, coins: seq<PyValue>, j: nat)
    requires j < |coins|
  {
    && CoinCandidate(coins[j]).Err?
    && (forall k :: 0 <= k < j ==> CoinCandidate(coins[k]).Ok?)
    && |Pick(AsValues(existing), Candidates(coins[..j]))| < |existing| + NewContractLimit
  }

  /** The loop ended, without raising, after looking at the first `i`
      coins: either the listing ran out or the cap was reached. */
  predicate StopsAt(contracts: seq<PyValue>, existing: seq<string>, coins: seq<PyValue>, i: nat)
    requires i <= |coins|
  {
    && Walked(contracts, existing, coins, i)
    && (i < |coins| ==> |contracts| == |existing| + NewContractLimit)
  }

  /** The loop has looked at the first `i` coins without raising. */
  predicate Walked(contracts: seq<PyValue>, existing: seq<string>, coins: seq<PyValue>, i: nat)
    requires i <= |coins|
  {
    && contracts == Pick(AsValues(existing), Candidates(coins[..i]))
    && Selection(contracts, existing, Candidates(coins[..i]))
    && (forall k :: 0 <= k < i ==> CoinCandidate(coins[k]).Ok?)
  }

  /** Lines 68-69 for a coin that offers `candidate`. */
  function Offer(contracts: seq<PyValue>, candidate: Option<PyValue>): seq<PyValue>
  {
    match candidate
    case Some(address) => if address !in contracts then contracts + [address] else contracts
    case None => contracts
  }

  lemma WalkStep(contracts: seq<PyValue>, existing: seq<string>, coins: seq<PyValue>, i: nat)
    requires i < |coins| && Walked(contracts, existing, coins, i) && CoinCandidate(coins[i]).Ok?
    requires |contracts| < |existing| + NewContractLimit
    ensures Walked(Offer(contracts, CoinCandidate(coins[i]).value), existing, coins, i + 1)
  {
    CandidatesStep(coins, i);
    match CoinCandidate(coins[i]).value {
      case None =>
      case Some(address) =>
        SelectionStep(contracts, existing, Candidates(coins[..i]), address);
        PickAppend(AsValues(existing), Candidates(coins[..i]), address);
    }
  }

  /** Once the cap is reached with no error so far, no later coin is looked
      at, so none can raise. */
  lemma NoErrorAfterCap(existing: seq<string>, coins: seq<PyValue>, i: nat)
    requires i <= |coins| && (forall k :: 0 <= k < i ==> CoinCandidate(coins[k]).Ok?)
    requires i == |coins| || |Pick(AsValues(existing), Candidates(coins[..i]))| >= |existing| + NewContractLimit
    ensures forall j :: 0 <= j < |coins| ==> !ErrorBeforeCap(existing, coins, j)
  {
    forall j | 0 <= j < |coins| && i <= j
      ensures !ErrorBeforeCap(existing, coins, j)
    {
      PickGrows(AsValues(existing), coins, i, j);
    }
  }

  /** Lines 56-75: the loop over the listed coins, starting from the
      existing contracts. */
  method SelectFromListing(existing: seq<string>, coins: seq<PyValue>) returns (r: Result<seq<PyValue>, PyError>)
    requires NoDuplicates(existing)
    ensures r.Ok? ==>
              && |existing| <= |r.value| <= |existing| + NewContractLimit
              && r.value[..|existing|] == AsValues(existing)
              && NoDuplicates(r.value)
              && IsSubseq(Added(r.value, existing), Candidates(coins))
              && (|r.value| < |existing| + NewContractLimit ==> forall a :: a in Candidates(coins) ==> a in r.value)
    ensures r.Ok? ==> exists i :: 0 <= i <= |coins| && StopsAt(r.value, existing, coins, i)
    ensures r.Err? <==> exists j :: 0 <= j < |coins| && ErrorBeforeCap(existing, coins, j)
    ensures r.Err? ==> r.error == AttributeError
  {
    var contracts := AsValues(existing);
    assert contracts[..|existing|] == contracts;
    assert coins[..0] == [];
    var i := 0;
    while i < |coins|
      invariant 0 <= i <= |coins|
      invariant Walked(contracts, existing, coins, i)
    {
      if |contracts| >= NewContractLimit + |existing| {
        break;
      }
      match CoinCandidate(coins[i]) {
        case Err(e) =>
          assert ErrorBeforeCap(existing, coins, i);
          return Err(e);
        case Ok(candidate) =>
          WalkStep(contracts, existing, coins, i);
          contracts := Offer(contracts, candidate);
      }
      i := i + 1;
    }
    assert StopsAt(contracts, existing, coins, i);
    NoErrorAfterCap(existing, coins, i);
    if i == |coins| {
      assert coins[..i] == coins;
    }
    CandidatesPrefix(Added(contracts, existing), coins, i);
    r := Ok(contracts);
  }

  /** Lines 16-81 after the HTTP reply has been decoded into `response`.
      `existing` lists the existing set in its iteration order. The result
      starts with the existing contracts and adds, in listing order and
      without repeats, up to ten contract addresses of Ethereum tokens. */
  method SelectNewContracts(existing: seq<string>, response: PyValue) returns (r: Result<seq<PyValue>, PyError>)
    requires NoDuplicates(existing)
    ensures !response.PyDict? ==> r == Err(AttributeError)
    ensures response.PyDict? && StatusRaises(response.entries) ==> r == Err(AttributeError)
    ensures response.PyDict? && !StatusOk(response.entries) && !StatusRaises(response.entries) ==>
              r == Ok(AsValues(existing))
    ensures response.PyDict? && StatusOk(response.entries) && Coins(response.entries).Err? ==>
              r == Err(Coins(response.entries).error)
    ensures r.Ok? ==>
              && |existing| <= |r.value| <= |existing| + NewContractLimit
              && r.value[..|existing|] == AsValues(existing)
              && NoDuplicates(r.value)
    ensures r.Ok? && response.PyDict? && StatusOk(response.entries) && Coins(response.entries).Ok? ==>
              var coins := Coins(response.entries).value;
              && IsSubseq(Added(r.value, existing), Candidates(coins))
              && (|r.value| < |existing| + NewContractLimit ==> forall a :: a in Candidates(coins) ==> a in r.value)
              && exists i :: 0 <= i <= |coins| && StopsAt(r.value, existing, coins, i)
    ensures response.PyDict? && StatusOk(response.entries) && Coins(response.entries).Ok? ==>
              var coins := Coins(response.entries).value;
              r.Err? <==> exists j :: 0 <= j < |coins| && ErrorBeforeCap(existing, coins, j)
  {
    if !response.PyDict? {
      return Err(AttributeError);
    }
    var data := response.entries;
    if !StatusOk(data) {
      if StatusRaises(data) {
        return Err(AttributeError);
      }
      var kept := AsValues(existing);
      assert kept[..|existing|] == kept;
      return Ok(kept);
    }
    match Coins(data) {
      case Err(e) =>
        return Err(e);
      case Ok(coins) =>
        r := SelectFromListing(existing, coins);
    }
  }

  /** Line 98: a stripped line names a contract when it starts with `0x` and
      is 42 characters long. Nothing checks that the rest is hexadecimal. */
  predicate IsContractLine(t: string)
  {
    StartsWith(t, "0x") && |t| == 42
  }

  /** Lines 97-99 for one line of the contracts file. */
  function ContractOf(line: string): (r: Option<string>)
    ensures r.Some? <==> IsContractLine(Strip(line))
    ensures r.Some? ==> r.value == Strip(line) && Strip(r.value) == r.value
  {
    var t := Strip(line);
    StripIdempotent(line);
    if IsContractLine(t) then Some(t) else None
  }

  /** Lines 96-100: the set of contracts named by the lines of the file. */
  function ReadExistingContracts(lines: seq<string>): (r: set<string>)
    ensures forall c :: c in r ==> IsContractLine(c) && Strip(c) == c
    ensures forall c :: c in r <==> exists i :: 0 <= i < |lines| && ContractOf(lines[i]) == Some(c)
  {
    set i | 0 <= i < |lines| && ContractOf(lines[i]).Some? :: ContractOf(lines[i]).value
  }

  /** Lines 116-118: the lines the writer produces, one contract and a
      newline each, as the reader gets them back when no contract holds a
      newline of its own. */
  function Written(contracts: seq<string>): (r: seq<string>)
    ensures |r| == |contracts|
  {
    seq(|contracts|, i requires 0 <= i < |contracts| => contracts[i] + "\n")
  }

  /** A contract the reader keeps as it is. */
  predicate Stable(c: string)
  {
    IsContractLine(c) && Strip(c) == c
  }

  lemma StripNewline(c: string)
    requires Stable(c)
    ensures Strip(c + "\n") == c
  {
    var s := c + "\n";
    assert s[0] == '0';
    assert StripLeft(s) == s;
    assert s[..|s| - 1] == c;
    assert StripRight(s) == StripRight(c);
    assert c[|c| - 1] == Strip(c)[|c| - 1];
  }

  /** Writing contracts and reading the file back keeps exactly the stable
      ones; any other line yields at most its stripped form. */
  lemma WriteThenRead(contracts: seq<string>)
    ensures forall c :: c in contracts && Stable(c) ==> c in ReadExistingContracts(Written(contracts))
    ensures forall c :: c in ReadExistingContracts(Written(contracts)) ==>
              exists i :: 0 <= i < |contracts| && Strip(contracts[i] + "\n") == c
    ensures (forall i :: 0 <= i < |contracts| ==> Stable(contracts[i])) ==>
              ReadExistingContracts(Written(contracts)) == set c | c in contracts
  {
    StableSurvives(contracts);
    ReadFromWrittenLine(contracts);
    if forall i :: 0 <= i < |contracts| ==> Stable(contracts[i]) {
      AllStableRead(contracts);
    }
  }

  lemma AllStableRead(contracts: seq<string>)
    requires forall i :: 0 <= i < |contracts| ==> Stable(contracts[i])
    ensures ReadExistingContracts(Written(contracts)) == set c | c in contracts
  {
    ReadOnlyWritten(contracts);
    StableSurvives(contracts);
    SetOfSeq(ReadExistingContracts(Written(contracts)), contracts);
  }

  lemma SetOfSeq<T>(a: set<T>, s: seq<T>)
    requires forall c :: c in a ==> c in s
    requires forall i :: 0 <= i < |s| ==> s[i] in a
    ensures a == set c | c in s
  {
  }

  lemma ReadOnlyWritten(contracts: seq<string>)
    requires forall i :: 0 <= i < |contracts| ==> Stable(contracts[i])
    ensures forall c :: c in ReadExistingContracts(Written(contracts)) ==> c in contracts
  {
    forall c | c in ReadExistingContracts(Written(contracts))
      ensures c in contracts
    {
      ReadFromWrittenLine(contracts);
      var i :| 0 <= i < |contracts| && Strip(contracts[i] + "\n") == c;
      StripNewline(contracts[i]);
    }
  }

  /** Every stable contract written is read back. */
  lemma StableSurvives(contracts: seq<string>)
    ensures forall c :: c in contracts && Stable(c) ==> c in ReadExistingContracts(Written(contracts))
  {
    var lines := Written(contracts);
    forall i | 0 <= i < |contracts| && Stable(contracts[i])
      ensures ContractOf(lines[i]) == Some(contracts[i])
    {
      StripNewline(contracts[i]);
    }
  }

  /** Every contract read back is the stripped form of a written line. */
  lemma ReadFromWrittenLine(contracts: seq<string>)
    ensures forall c :: c in ReadExistingContracts(Written(contracts)) ==>
              exists i :: 0 <= i < |contracts| && Strip(contracts[i] + "\n") == c
  {
    var lines := Written(contracts);
    forall c | c in ReadExistingContracts(lines)
      ensures exists i :: 0 <= i < |contracts| && Strip(contracts[i] + "\n") == c
    {
      var i :| 0 <= i < |lines| && ContractOf(lines[i]) == Some(c);
      assert lines[i] == contracts[i] + "\n";
    }
  }
}
