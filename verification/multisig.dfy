/** The client-side multisignature flow of the multisig example program:
    finding the freshly created output by paging through the member set's
    outputs, choosing the amount to spend, deciding whether to ask for an
    unlock, and the broadcast scan of the background submitter.
    Every network answer is an input: a script of pages for the output reads,
    server snapshots for the multisig requests, and a function for broadcasts. */
module MultisigExample {
  import opened Wrappers
  import opened Hex

  /** An `UpdatedAt` timestamp; `ZeroTime` is Go's zero `time.Time`. */
  type Time = int
  const ZeroTime: Time := 0

  type Uint8 = x: int | 0 <= x < 256

  datatype UTXOState = Unspent | Signed | Spent

  /** A multisig output; `amount` is in units of 10^-8 of the asset. */
  datatype MultisigUTXO = MultisigUTXO(
    transactionHash: seq<Byte>,
    amount: nat,
    state: UTXOState,
    signedBy: string,
    signedTx: string,
    updatedAt: Time)

  // ---------------------------------------------------------------------------
  // Finding the output of the transfer (the `for utxo == nil` loop).

  /** One answer of `ReadMultisigOutputs`. */
  datatype Read = Page(outputs: seq<MultisigUTXO>) | ReadError(err: Error)

  /** The page size the example asks for. */
  const UtxoPageLimit: nat := 10

  /** The output's hash, hex-encoded, is the transfer's hash. */
  predicate Matches(o: MultisigUTXO, target: string)
  {
    EncodeToString(o.transactionHash) == target
  }

  predicate NoMatch(page: seq<MultisigUTXO>, target: string)
  {
    forall j :: 0 <= j < |page| ==> !Matches(page[j], target)
  }

  /** `page[j]` matches and nothing before it does. */
  predicate IsFirstMatch(page: seq<MultisigUTXO>, target: string, j: int)
  {
    0 <= j < |page| && Matches(page[j], target) && forall i :: 0 <= i < j ==> !Matches(page[i], target)
  }

  /** The cursor after scanning a whole page: the last output's `UpdatedAt`;
      an empty page leaves it where it was. */
  function LastCursor(page: seq<MultisigUTXO>, offset: Time): Time
  {
    if page == [] then offset else page[|page| - 1].updatedAt
  }

  datatype PageScan = PageScan(found: Option<MultisigUTXO>, cursor: Time)

  /** The inner `range` loop: move the cursor to each output in turn and stop at the first match. */
  function ScanPage(page: seq<MultisigUTXO>, target: string, offset: Time): PageScan
  {
    if page == [] then PageScan(None, offset)
    else if Matches(page[0], target) then PageScan(Some(page[0]), page[0].updatedAt)
    else ScanPage(page[1..], target, page[0].updatedAt)
  }

  /** A page scan either finds nothing, having scanned the whole page, or
      stops at the page's first match with the cursor on it. */
  lemma {:induction false} ScanPageResult(page: seq<MultisigUTXO>, target: string, offset: Time)
    ensures var r := ScanPage(page, target, offset);
      (r.found.None? ==> NoMatch(page, target) && r.cursor == LastCursor(page, offset))
      && (r.found.Some? ==> exists j :: IsFirstMatch(page, target, j) && r.found.value == page[j] && r.cursor == page[j].updatedAt)
  {
    if page != [] {
      if Matches(page[0], target) {
        assert IsFirstMatch(page, target, 0);
      } else {
        var r := ScanPage(page[1..], target, page[0].updatedAt);
        ScanPageResult(page[1..], target, page[0].updatedAt);
        if r.found.Some? {
          var j :| IsFirstMatch(page[1..], target, j) && r.found.value == page[1..][j] && r.cursor == page[1..][j].updatedAt;
          assert IsFirstMatch(page, target, j + 1);
        }
      }
    }
  }

  /** How the search ended. `Unanswered` means the loop wanted a read the script has no answer for. */
  datatype Outcome = Found(utxo: MultisigUTXO) | NoUnspentUtxo | ReadFailed(err: Error) | Unanswered

  /** The outcome and the cursor sent with each read, in order. */
  datatype SearchTrace = SearchTrace(outcome: Outcome, cursors: seq<Time>)

  function Prefixed(cursors: seq<Time>, t: SearchTrace): SearchTrace
  {
    SearchTrace(t.outcome, cursors + t.cursors)
  }

  /** A read after which the loop goes on: a page of at least `limit` outputs, none matching. */
  predicate FullPageWithoutMatch(r: Read, target: string, limit: nat)
  {
    r.Page? && |r.outputs| >= limit && NoMatch(r.outputs, target)
  }

  /** Why the loop stopped after its read number `k`. */
  ghost predicate EndsAt(script: seq<Read>, target: string, limit: nat, k: nat, outcome: Outcome)
  {
    match outcome
    case Unanswered => k == |script|
    case ReadFailed(e) => k < |script| && script[k] == ReadError(e)
    case Found(u) =>
      k < |script| && script[k].Page? && exists j :: IsFirstMatch(script[k].outputs, target, j) && script[k].outputs[j] == u
    case NoUnspentUtxo =>
      k < |script| && script[k].Page? && |script[k].outputs| < limit && NoMatch(script[k].outputs, target)
  }

  /** The search, read by read, when the k-th read is answered by `script[k]`. */
  function Search(script: seq<Read>, target: string, limit: nat, offset: Time): SearchTrace
    decreases |script|
  {
    if script == [] then SearchTrace(Unanswered, [offset])
    else
      match script[0]
      case ReadError(e) => SearchTrace(ReadFailed(e), [offset])
      case Page(outputs) =>
        var scan := ScanPage(outputs, target, offset);
        if scan.found.Some? then SearchTrace(Found(scan.found.value), [offset])
        else if |outputs| < limit then SearchTrace(NoUnspentUtxo, [offset])
        else Prefixed([offset], Search(script[1..], target, limit, scan.cursor))
  }

  /** Read number `k` was followed by another: its answer was a full page
      without a match, and the next read was sent from that page's last cursor. */
  ghost predicate Continued(script: seq<Read>, target: string, limit: nat, cursors: seq<Time>, k: nat)
  {
    k < |script| && k + 1 < |cursors| && FullPageWithoutMatch(script[k], target, limit)
    && cursors[k + 1] == LastCursor(script[k].outputs, cursors[k])
  }

  /** What every run of the search does: the first read is sent from `offset`,
      each further read follows a full page without a match and is sent from
      the last cursor of that page, and the last read explains the outcome
      (the first match of its page, a short page without one, a read error,
      or a read the script does not answer). */
  lemma {:induction false} SearchReads(script: seq<Read>, target: string, limit: nat, offset: Time)
    decreases |script|
    ensures var t := Search(script, target, limit, offset);
      1 <= |t.cursors| <= |script| + 1 && t.cursors[0] == offset
      && (forall k: nat :: k < |t.cursors| - 1 ==> Continued(script, target, limit, t.cursors, k))
      && EndsAt(script, target, limit, |t.cursors| - 1, t.outcome)
  {
    var t := Search(script, target, limit, offset);
    if script != [] && script[0].Page? {
      var outputs := script[0].outputs;
      var scan := ScanPage(outputs, target, offset);
      ScanPageResult(outputs, target, offset);
      if scan.found.Some? {
        var j :| IsFirstMatch(outputs, target, j) && scan.found.value == outputs[j];
        assert EndsAt(script, target, limit, 0, t.outcome);
      } else if |outputs| >= limit {
        var rest := Search(script[1..], target, limit, scan.cursor);
        SearchReads(script[1..], target, limit, scan.cursor);
        assert t.cursors == [offset] + rest.cursors;
        assert Continued(script, target, limit, t.cursors, 0);
        forall k: nat | 1 <= k < |t.cursors| - 1
          ensures Continued(script, target, limit, t.cursors, k)
        {
          assert Continued(script[1..], target, limit, rest.cursors, k - 1);
          assert script[1..][k - 1] == script[k];
        }
        var last := |rest.cursors| - 1;
        assert EndsAt(script[1..], target, limit, last, rest.outcome);
        if last < |script[1..]| {
          assert script[1..][last] == script[last + 1];
        }
        match rest.outcome
        case Found(u) =>
          var j :| IsFirstMatch(script[1..][last].outputs, target, j) && script[1..][last].outputs[j] == u;
          assert EndsAt(script, target, limit, last + 1, t.outcome);
        case _ =>
      }
    }
  }

  /** The search from read `i` on, behind the cursors `before`, once read `i`,
      sent from `offset`, has been answered. */
  lemma SearchFrom(script: seq<Read>, i: nat, target: string, limit: nat, before: seq<Time>, offset: Time,
                   found: Option<MultisigUTXO>, cursor: Time)
    requires i < |script|
    requires script[i].Page? ==> PageScan(found, cursor) == ScanPage(script[i].outputs, target, offset)
    ensures var t := Prefixed(before, Search(script[i..], target, limit, offset));
      && (script[i].ReadError? ==> t == SearchTrace(ReadFailed(script[i].err), before + [offset]))
      && (script[i].Page? && found.Some? ==> t == SearchTrace(Found(found.value), before + [offset]))
      && (script[i].Page? && found.None? && |script[i].outputs| < limit ==>
            t == SearchTrace(NoUnspentUtxo, before + [offset]))
      && (script[i].Page? && found.None? && |script[i].outputs| >= limit ==>
            t == Prefixed(before + [offset], Search(script[i + 1..], target, limit, cursor)))
  {
    assert script[i..][0] == script[i] && script[i..][1..] == script[i + 1..];
    var next := Search(script[i + 1..], target, limit, cursor);
    assert before + [offset] + next.cursors == before + ([offset] + next.cursors);
  }

  /** One step of the page scan from output `j`. */
  lemma ScanStep(page: seq<MultisigUTXO>, target: string, j: nat, cursor: Time)
    requires j < |page|
    ensures ScanPage(page[j..], target, cursor)
      == if Matches(page[j], target) then PageScan(Some(page[j]), page[j].updatedAt)
         else ScanPage(page[j + 1..], target, page[j].updatedAt)
  {
    assert page[j..][0] == page[j] && page[j..][1..] == page[j + 1..];
  }

  /** The inner loop over one page: advance the cursor output by output and
      return the first output whose hash matches. */
  method ScanOutputs(outputs: seq<MultisigUTXO>, target: string, offset: Time)
    returns (utxo: Option<MultisigUTXO>, cursor: Time)
    ensures PageScan(utxo, cursor) == ScanPage(outputs, target, offset)
  {
    cursor := offset;
    var j := 0;
    while j < |outputs|
      invariant 0 <= j <= |outputs|
      invariant ScanPage(outputs, target, offset) == ScanPage(outputs[j..], target, cursor)
    {
      ScanStep(outputs, target, j, cursor);
      var output := outputs[j];
      cursor := output.updatedAt;
      if Matches(output, target) {
        return Some(output), cursor;
      }
      j := j + 1;
    }
    assert outputs[j..] == [];
    utxo := None;
  }

  /** The matching loop of the example: read pages of outputs from cursor
      `ZeroTime`, stop at the first output whose hex-encoded hash is `target`
      or after a page shorter than `limit`. */
  method FindMultisigUtxo(script: seq<Read>, target: string, limit: nat) returns (outcome: Outcome, cursors: seq<Time>)
    ensures SearchTrace(outcome, cursors) == Search(script, target, limit, ZeroTime)
  {
    ghost var spec := Search(script, target, limit, ZeroTime);
    var utxo: Option<MultisigUTXO> := None;
    var offset := ZeroTime;
    var issued := 0;
    cursors := [];
    while utxo.None?
      invariant issued <= |script|
      invariant utxo.None? ==> spec == Prefixed(cursors, Search(script[issued..], target, limit, offset))
      invariant utxo.Some? ==> spec == SearchTrace(Found(utxo.value), cursors)
      decreases |script| - issued
    {
      if issued == |script| {
        return Unanswered, cursors + [offset];
      }
      ghost var before, sent, i := cursors, offset, issued;
      var answer := script[issued];
      cursors := cursors + [offset];
      issued := issued + 1;
      if answer.ReadError? {
        SearchFrom(script, i, target, limit, before, sent, None, sent);
        return ReadFailed(answer.err), cursors;
      }
      utxo, offset := ScanOutputs(answer.outputs, target, offset);
      SearchFrom(script, i, target, limit, before, sent, utxo, offset);
      if |answer.outputs| < limit {
        break;
      }
    }
    outcome := if utxo.Some? then Found(utxo.value) else NoUnspentUtxo;
  }

  /** The output the search finds carries the transfer's hash itself, not just
      a hash with the same text: hex encoding is one-to-one. */
  lemma {:induction false} FoundHasTransferHash(script: seq<Read>, limit: nat, hash: seq<Byte>)
    requires Search(script, EncodeToString(hash), limit, ZeroTime).outcome.Found?
    ensures Search(script, EncodeToString(hash), limit, ZeroTime).outcome.utxo.transactionHash == hash
  {
    var target := EncodeToString(hash);
    var t := Search(script, target, limit, ZeroTime);
    SearchReads(script, target, limit, ZeroTime);
    var k := |t.cursors| - 1;
    var j :| IsFirstMatch(script[k].outputs, target, j) && script[k].outputs[j] == t.outcome.utxo;
    EncodeToStringInjective(t.outcome.utxo.transactionHash, hash);
  }

  /** Pages of 10, 10 and 7 outputs without the wanted one, with a limit of 10:
      exactly three issued, and the search reports that no output was found. */
  lemma {:induction false} ShortPageEndsSearch(script: seq<Read>, target: string)
    requires |script| >= 3
    requires forall k :: 0 <= k < 3 ==> script[k].Page? && NoMatch(script[k].outputs, target)
    requires |script[0].outputs| == 10 && |script[1].outputs| == 10 && |script[2].outputs| == 7
    ensures Search(script, target, UtxoPageLimit, ZeroTime).outcome == NoUnspentUtxo
    ensures |Search(script, target, UtxoPageLimit, ZeroTime).cursors| == 3
  {
    var scan0 := ScanPage(script[0].outputs, target, ZeroTime);
    var scan1 := ScanPage(script[1].outputs, target, scan0.cursor);
    ScanPageResult(script[0].outputs, target, ZeroTime);
    ScanPageResult(script[1].outputs, target, scan0.cursor);
    ScanPageResult(script[2].outputs, target, scan1.cursor);
    assert script[1..][0] == script[1] && script[1..][1..] == script[2..] && script[2..][0] == script[2];
    assert Search(script, target, UtxoPageLimit, ZeroTime)
      == Prefixed([ZeroTime], Search(script[1..], target, UtxoPageLimit, scan0.cursor));
    assert Search(script[1..], target, UtxoPageLimit, scan0.cursor)
      == Prefixed([scan0.cursor], Search(script[2..], target, UtxoPageLimit, scan1.cursor));
    assert Search(script[2..], target, UtxoPageLimit, scan1.cursor) == SearchTrace(NoUnspentUtxo, [scan1.cursor]);
  }

  // ---------------------------------------------------------------------------
  // The amount to spend.

  /** `Div(2)` on an amount with eight decimals is exact with nine: the half in units of 10^-9. */
  function HalveExact(amount: nat): nat
  {
    amount * 5
  }

  /** `Truncate(8)`: drop the digits below 10^-8 (towards zero). */
  function TruncateTo8(units9: nat): nat
  {
    units9 / 10
  }

  /** Half the output's amount, truncated to eight decimals; the whole amount if that is zero. */
  function SpendAmount(amount: nat): (r: nat)
    ensures amount >= 2 ==> 2 * r <= amount <= 2 * r + 1
    ensures amount < 2 ==> r == amount
    ensures amount > 0 ==> 0 < r <= amount
  {
    var half := TruncateTo8(HalveExact(amount));
    assert amount * 5 == 10 * (amount / 2) + 5 * (amount % 2);
    if half == 0 then amount else half
  }

  // ---------------------------------------------------------------------------
  // Asking for an unlock.

  datatype MultisigAction = ActionSign | ActionUnlock

  /** The parts of a server's multisig request snapshot the example issued. */
  datatype MultisigRequest = MultisigRequest(requestID: string, signers: seq<string>, threshold: Uint8)

  /** The multisig calls the example makes, in order. */
  datatype Call = CreateMultisig(action: MultisigAction, raw: string) | SignMultisig(id: string) | UnlockMultisig(id: string)

  /** The second signing round: create a sign request, sign it, and, when
      the signed snapshot still has fewer signers than its threshold, create
      an unlock request and unlock it. `created`, `signed` and `unlocking` are
      the server's answers to the two creations and the sign call. */
  function SignRound(raw: string, created: MultisigRequest, signed: MultisigRequest, unlocking: MultisigRequest): (calls: seq<Call>)
    ensures |calls| >= 2 && calls[0] == CreateMultisig(ActionSign, raw) && calls[1] == SignMultisig(created.requestID)
    ensures (exists i :: 0 <= i < |calls| && calls[i].UnlockMultisig?) <==> |signed.signers| < signed.threshold
    ensures |calls| > 2 ==> calls[2..] == [CreateMultisig(ActionUnlock, raw), UnlockMultisig(unlocking.requestID)]
  {
    var signing := [CreateMultisig(ActionSign, raw), SignMultisig(created.requestID)];
    if |signed.signers| < signed.threshold then
      var calls := signing + [CreateMultisig(ActionUnlock, raw), UnlockMultisig(unlocking.requestID)];
      assert calls[3].UnlockMultisig?;
      calls
    else
      signing
  }

  // ---------------------------------------------------------------------------
  // The broadcast scan of the background submitter.

  /** An output worth broadcasting: signed, with a known signer. */
  predicate Broadcastable(o: MultisigUTXO)
  {
    o.state == Signed && o.signedBy != ""
  }

  /** The signed transactions of the broadcastable outputs, in output order. */
  function SignedTxs(outputs: seq<MultisigUTXO>): seq<string>
  {
    if outputs == [] then []
    else (if Broadcastable(outputs[0]) then [outputs[0].signedTx] else []) + SignedTxs(outputs[1..])
  }

  /** The hashes of the broadcasts that succeeded, in order. */
  function Submitted(txs: seq<string>, send: string -> Result<string, Error>): seq<string>
  {
    if txs == [] then []
    else (if send(txs[0]).Ok? then [send(txs[0]).value] else []) + Submitted(txs[1..], send)
  }

  /** A transaction is broadcast exactly when some broadcastable output carries it. */
  lemma {:induction false} SignedTxsMembership(outputs: seq<MultisigUTXO>, tx: string)
    ensures tx in SignedTxs(outputs) <==> exists o :: o in outputs && Broadcastable(o) && o.signedTx == tx
  {
    if outputs != [] {
      SignedTxsMembership(outputs[1..], tx);
      assert forall o :: o in outputs <==> o == outputs[0] || o in outputs[1..];
    }
  }

  /** Every submitted hash is the answer to one attempted broadcast, and no more hashes than attempts. */
  lemma {:induction false} SubmittedFromAttempts(txs: seq<string>, send: string -> Result<string, Error>)
    ensures |Submitted(txs, send)| <= |txs|
    ensures forall h :: h in Submitted(txs, send) ==> exists tx :: tx in txs && send(tx) == Ok(h)
    ensures (forall tx :: tx in txs ==> send(tx).Ok?) ==> |Submitted(txs, send)| == |txs|
  {
    if txs != [] {
      SubmittedFromAttempts(txs[1..], send);
      assert forall tx :: tx in txs[1..] ==> tx in txs;
    }
  }

  /** Handling one more output adds its transaction, if it is broadcastable. */
  lemma {:induction false} SignedTxsAppend(outputs: seq<MultisigUTXO>, o: MultisigUTXO)
    ensures SignedTxs(outputs + [o]) == SignedTxs(outputs) + (if Broadcastable(o) then [o.signedTx] else [])
  {
    if outputs == [] {
      assert [] + [o] == [o];
    } else {
      var head := if Broadcastable(outputs[0]) then [outputs[0].signedTx] else [];
      var last := if Broadcastable(o) then [o.signedTx] else [];
      assert (outputs + [o])[0] == outputs[0];
      assert (outputs + [o])[1..] == outputs[1..] + [o];
      calc {
        SignedTxs(outputs + [o]);
        head + SignedTxs(outputs[1..] + [o]);
        { SignedTxsAppend(outputs[1..], o); }
        head + (SignedTxs(outputs[1..]) + last);
        (head + SignedTxs(outputs[1..])) + last;
      }
    }
  }

  /** One polling round over `outputs`: broadcast every signed output's
      transaction; a failed broadcast is skipped and the scan goes on.
      `attempted` lists what was sent, `submitted` the hashes logged. */
  method SubmitSignedOutputs(outputs: seq<MultisigUTXO>, send: string -> Result<string, Error>)
    returns (attempted: seq<string>, submitted: seq<string>)
    // what is sent depends on the outputs only, not on earlier failures
    ensures attempted == SignedTxs(outputs)
    ensures submitted == Submitted(attempted, send)
  {
    attempted, submitted := [], [];
    var i := 0;
    while i < |outputs|
      invariant 0 <= i <= |outputs|
      invariant attempted == SignedTxs(outputs[..i])
      invariant submitted == Submitted(attempted, send)
    {
      var output := outputs[i];
      assert outputs[..i + 1] == outputs[..i] + [output];
      SignedTxsAppend(outputs[..i], output);
      i := i + 1;
      if Broadcastable(output) {
        SubmittedAppend(attempted, output.signedTx, send);
        attempted := attempted + [output.signedTx];
        var tx := send(output.signedTx);
        if tx.Err? {
          continue;
        }
        submitted := submitted + [tx.value];
      }
    }
    assert outputs[..i] == outputs;
  }

  lemma {:induction false} SubmittedAppend(txs: seq<string>, tx: string, send: string -> Result<string, Error>)
    ensures Submitted(txs + [tx], send) == Submitted(txs, send) + (if send(tx).Ok? then [send(tx).value] else [])
  {
    if txs == [] {
      assert [] + [tx] == [tx];
    } else {
      var head := if send(txs[0]).Ok? then [send(txs[0]).value] else [];
      var last := if send(tx).Ok? then [send(tx).value] else [];
      assert (txs + [tx])[0] == txs[0];
      assert (txs + [tx])[1..] == txs[1..] + [tx];
      calc {
        Submitted(txs + [tx], send);
        head + Submitted(txs[1..] + [tx], send);
        { SubmittedAppend(txs[1..], tx, send); }
        head + (Submitted(txs[1..], send) + last);
        (head + Submitted(txs[1..], send)) + last;
      }
    }
  }
}
