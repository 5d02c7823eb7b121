/** Which checks run for which documents, from a constant table. */
module DataTriggers {
  import opened Buffers
  import opened Options

  datatype Action = CREATE | REPLACE | DELETE

  datatype Check = CreateDomain | CreateContactRequest | CreateFeatureFlag | Reject

  datatype DataTrigger = DataTrigger(dataContractId: Buffer, documentType: string, action: Action, check: Check)
  {
    predicate IsMatchingTriggerForData(contractId: Buffer, document: string, transition: Action) {
      dataContractId == contractId && documentType == document && action == transition
    }
  }

  const DOMAIN := "domain"
  const PREORDER := "preorder"
  const CONTACT_REQUEST := "contactRequest"
  const UPDATE_CONSENSUS_PARAMS := "updateConsensusParams"
  const FIX_CUMULATIVE_FEES := "fixCumulativeFeesBug"

  /** The contracts the triggers are configured for; empty when not configured. */
  datatype Contracts = Contracts(dpns: Buffer, dashPay: Buffer, featureFlags: Buffer)

  function Table(c: Contracts): seq<DataTrigger> {
    [
      DataTrigger(c.dpns, DOMAIN, CREATE, CreateDomain),
      DataTrigger(c.dpns, DOMAIN, REPLACE, Reject),
      DataTrigger(c.dpns, DOMAIN, DELETE, Reject),
      DataTrigger(c.dpns, PREORDER, REPLACE, Reject),
      DataTrigger(c.dpns, PREORDER, DELETE, Reject),
      DataTrigger(c.dashPay, CONTACT_REQUEST, CREATE, CreateContactRequest),
      DataTrigger(c.dashPay, CONTACT_REQUEST, REPLACE, Reject),
      DataTrigger(c.dashPay, CONTACT_REQUEST, DELETE, Reject),
      DataTrigger(c.featureFlags, UPDATE_CONSENSUS_PARAMS, CREATE, CreateFeatureFlag),
      DataTrigger(c.featureFlags, UPDATE_CONSENSUS_PARAMS, REPLACE, Reject),
      DataTrigger(c.featureFlags, UPDATE_CONSENSUS_PARAMS, DELETE, Reject),
      DataTrigger(c.featureFlags, FIX_CUMULATIVE_FEES, CREATE, CreateFeatureFlag),
      DataTrigger(c.featureFlags, FIX_CUMULATIVE_FEES, REPLACE, Reject),
      DataTrigger(c.featureFlags, FIX_CUMULATIVE_FEES, DELETE, Reject)
    ]
  }

  function Matching(table: seq<DataTrigger>, contractId: Buffer, document: string, action: Action): seq<DataTrigger> {
    if table == [] then []
    else
      var rest := Matching(table[1..], contractId, document, action);
      if table[0].IsMatchingTriggerForData(contractId, document, action) then [table[0]] + rest else rest
  }

  function GetDataTriggers(c: Contracts, contractId: Buffer, document: string, action: Action): seq<DataTrigger> {
    Matching(Table(c), contractId, document, action)
  }

  lemma {:induction false} MatchingMembers(table: seq<DataTrigger>, contractId: Buffer, document: string,
                                           action: Action)
    ensures forall t :: t in Matching(table, contractId, document, action) <==>
      t in table && t.IsMatchingTriggerForData(contractId, document, action)
  {
    if table != [] {
      MatchingMembers(table[1..], contractId, document, action);
      assert table == [table[0]] + table[1..];
    }
  }

  lemma RejectsInTable(c: Contracts, contractId: Buffer, document: string, action: Action)
    requires action != CREATE
    requires (contractId == c.dpns && document in {DOMAIN, PREORDER})
      || (contractId == c.dashPay && document == CONTACT_REQUEST)
      || (contractId == c.featureFlags && document in {UPDATE_CONSENSUS_PARAMS, FIX_CUMULATIVE_FEES})
    ensures DataTrigger(contractId, document, action, Reject) in Table(c)
  {
    var table := Table(c);
    assert table[1] in table && table[2] in table && table[3] in table && table[4] in table;
    assert table[6] in table && table[7] in table && table[9] in table && table[10] in table;
    assert table[12] in table && table[13] in table;
  }

  /** Replacing or deleting a domain, preorder, contact request or feature flag
      always meets the rejecting check. */
  lemma ReplaceAndDeleteRejected(c: Contracts, contractId: Buffer, document: string, action: Action)
    requires action != CREATE
    requires (contractId == c.dpns && document in {DOMAIN, PREORDER})
      || (contractId == c.dashPay && document == CONTACT_REQUEST)
      || (contractId == c.featureFlags && document in {UPDATE_CONSENSUS_PARAMS, FIX_CUMULATIVE_FEES})
    ensures DataTrigger(contractId, document, action, Reject) in GetDataTriggers(c, contractId, document, action)
  {
    MatchingMembers(Table(c), contractId, document, action);
    RejectsInTable(c, contractId, document, action);
  }

  /** The check each document type's creation meets; a preorder's meets none. */
  lemma CreationChecks(c: Contracts, contractId: Buffer, document: string, t: DataTrigger)
    requires t in GetDataTriggers(c, contractId, document, CREATE)
    ensures document == DOMAIN ==> t.check == CreateDomain
    ensures document == CONTACT_REQUEST ==> t.check == CreateContactRequest
    ensures document in {UPDATE_CONSENSUS_PARAMS, FIX_CUMULATIVE_FEES} ==> t.check == CreateFeatureFlag
    ensures document != PREORDER
  {
    MatchingMembers(Table(c), contractId, document, CREATE);
    var table := Table(c);
    var i :| 0 <= i < |table| && table[i] == t;
    assert i in {0, 5, 8, 11};
  }

  /** The creation of a domain and of a flag does meet its check. */
  lemma CreationIsChecked(c: Contracts, contractId: Buffer, document: string, check: Check)
    requires (contractId == c.dpns && document == DOMAIN && check == CreateDomain)
      || (contractId == c.featureFlags && document == UPDATE_CONSENSUS_PARAMS && check == CreateFeatureFlag)
      || (contractId == c.featureFlags && document == FIX_CUMULATIVE_FEES && check == CreateFeatureFlag)
    ensures DataTrigger(contractId, document, CREATE, check) in GetDataTriggers(c, contractId, document, CREATE)
  {
    var table := Table(c);
    assert table[0] in table && table[8] in table && table[11] in table;
    MatchingMembers(table, contractId, document, CREATE);
  }

  /** The contract whose documents of this type are guarded. */
  function Guarding(c: Contracts, document: string): set<Buffer> {
    if document == DOMAIN || document == PREORDER then {c.dpns}
    else if document == CONTACT_REQUEST then {c.dashPay}
    else if document == UPDATE_CONSENSUS_PARAMS || document == FIX_CUMULATIVE_FEES then {c.featureFlags}
    else {}
  }

  /** What meets a transition on a guarded document: creations the check of their
      type, if it has one, replacements and deletions the rejection. */
  function CheckFor(document: string, action: Action): Option<Check> {
    if action != CREATE then Some(Reject)
    else if document == DOMAIN then Some(CreateDomain)
    else if document == CONTACT_REQUEST then Some(CreateContactRequest)
    else if document == PREORDER then None
    else Some(CreateFeatureFlag)
  }

  predicate IsExpected(c: Contracts, t: DataTrigger) {
    t.dataContractId in Guarding(c, t.documentType) && CheckFor(t.documentType, t.action) == Some(t.check)
  }

  lemma NamesDiffer()
    ensures |DOMAIN| == 6 && |PREORDER| == 8 && |CONTACT_REQUEST| == 14
    ensures |UPDATE_CONSENSUS_PARAMS| == 21 && |FIX_CUMULATIVE_FEES| == 20
  {
  }

  lemma DpnsRows(c: Contracts, i: nat)
    requires i < 5
    ensures IsExpected(c, Table(c)[i])
  {
    NamesDiffer();
  }

  lemma OtherRows(c: Contracts, i: nat)
    requires 5 <= i < 14
    ensures IsExpected(c, Table(c)[i])
  {
    NamesDiffer();
    if i < 8 {
      assert Table(c)[i].documentType == CONTACT_REQUEST;
    } else if i < 11 {
      assert Table(c)[i].documentType == UPDATE_CONSENSUS_PARAMS;
    } else {
      assert Table(c)[i].documentType == FIX_CUMULATIVE_FEES;
    }
  }

  lemma ExpectedIsInTable(c: Contracts, t: DataTrigger)
    requires IsExpected(c, t)
    ensures t in Table(c)
  {
    var table := Table(c);
    assert table[0] in table && table[5] in table && table[8] in table && table[11] in table;
    if t.action != CREATE {
      RejectsInTable(c, t.dataContractId, t.documentType, t.action);
    }
  }

  /** Exactly these checks run, for any contract, document type and action. */
  lemma TriggersAre(c: Contracts, contractId: Buffer, document: string, action: Action, t: DataTrigger)
    ensures t in GetDataTriggers(c, contractId, document, action) <==>
      && t.dataContractId == contractId && t.documentType == document && t.action == action
      && contractId in Guarding(c, document) && CheckFor(document, action) == Some(t.check)
  {
    MatchingMembers(Table(c), contractId, document, action);
    if t in Table(c) {
      var i :| 0 <= i < |Table(c)| && Table(c)[i] == t;
      if i < 5 { DpnsRows(c, i); } else { OtherRows(c, i); }
    }
    if IsExpected(c, t) { ExpectedIsInTable(c, t); }
  }
}
