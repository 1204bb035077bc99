/** The ledger's tables and the service that updates them (modules/ledger/service.js, model.js). Every
    method is proved against the functions of module Ledger. */
module LedgerService {
  import opened Text
  import opened HashChain
  import opened Ledger
  import J = CanonicalJson

  class Tables {
    const sha256: Hash
    const dates: DateColumn
    var accounts: map<AccountKey, AccountRow>
    var journals: seq<Journal>
    var nextSeq: nat

    constructor (sha256: Hash, dates: DateColumn)
      ensures this.sha256 == sha256 && this.dates == dates && accounts == map[] && journals == [] && nextSeq == 1
    {
      this.sha256 := sha256;
      this.dates := dates;
      accounts := map[];
      journals := [];
      nextSeq := 1;
    }

    function Contents(): Books
      reads this
    {
      Books(sha256, dates, accounts, journals, nextSeq)
    }

    method EnsureAccount(key: AccountKey) returns (error: Option<LedgerError>)
      modifies this`accounts
      ensures match WithAccount(old(Contents()), key)
        case Ok(b) => error == None && Contents() == b
        case Err(e) => error == Some(e) && Contents() == old(Contents())
    {
      if OwnerMissing(key) {
        return Some(OwnerRequired);
      }
      if key !in accounts {
        accounts := accounts[key := AccountRow(key.currency, true)];
      }
      return None;
    }

    method CheckAccounts(entries: seq<Entry>) returns (error: Option<LedgerError>)
      ensures error == AccountError(accounts, entries, 0)
    {
      var i := 0;
      while i < |entries|
        invariant 0 <= i <= |entries|
        invariant AccountError(accounts, entries, 0) == AccountError(accounts, entries, i)
      {
        var e := entries[i];
        if e.account !in accounts {
          return Some(AccountMissing);
        }
        if !accounts[e.account].active {
          return Some(AccountInactive);
        }
        if accounts[e.account].currency != e.currency {
          return Some(CurrencyMismatch);
        }
        i := i + 1;
      }
      return None;
    }

    method InsertPostings(entries: seq<Entry>) returns (postings: seq<Posting>)
      ensures postings == StoredUpTo(entries, |entries|)
    {
      postings := [];
      var i := 0;
      while i < |entries|
        invariant 0 <= i <= |entries| && postings == StoredUpTo(entries, i)
      {
        postings := postings + [StoredPosting(entries[i])];
        i := i + 1;
      }
    }

    /** The last journal of a date, found from the end of the table. */
    method LastHashForDate(date: string) returns (r: Result<string, LedgerError>)
      ensures r == match dates.read(date) case Some(day) => Ok(PrevHash(journals, day)) case None => Err(DateInvalid)
    {
      var read := dates.read(date);
      if read.None? {
        return Err(DateInvalid);
      }
      var day := read.value;
      var i := |journals|;
      assert journals[..i] == journals;
      while i > 0
        invariant 0 <= i <= |journals|
        invariant PrevHash(journals, day) == PrevHash(journals[..i], day)
      {
        assert journals[..i][..i - 1] == journals[..i - 1];
        if journals[i - 1].operatingDate == day {
          return Ok(if journals[i - 1].hash == "" then GENESIS else journals[i - 1].hash);
        }
        i := i - 1;
      }
      return Ok(GENESIS);
    }

    method PostJournal(j: JournalInput) returns (error: Option<LedgerError>)
      modifies this`journals, this`nextSeq
      ensures match Posted(old(Contents()), j)
        case Ok(b) => error == None && Contents() == b
        case Err(e) => error == Some(e) && Contents() == old(Contents())
    {
      if j.reason.UnknownReason? {
        return Some(ReasonUnknown);
      }
      if j.operatingDate == "" {
        return Some(DateRequired);
      }
      if |j.entries| < 2 {
        return Some(TooFewEntries);
      }
      error := AssertBalanced(j.entries);
      if error.Some? {
        return;
      }
      error := CheckAccounts(j.entries);
      if error.Some? {
        return;
      }
      var last := LastHashForDate(j.operatingDate);
      if last.Err? {
        return Some(last.error);
      }
      var prev, day := last.value, dates.read(j.operatingDate).value;
      var payload := PayloadJson(nextSeq, j.reason, j.operatingDate, j.reference, GivenTexts(j.entries));
      var hash := ChainHash(sha256, prev, J.CanonicalText(payload));
      var postings := InsertPostings(j.entries);
      journals := journals + [Journal(nextSeq, j.postedAt, day, j.reason, j.reference, prev, hash, postings)];
      nextSeq := nextSeq + 1;
    }

    method BalanceFor(a: AccountKey, asOf: Option<int>) returns (balance: int)
      ensures balance == BalanceAsOf(journals, a, asOf)
    {
      balance := 0;
      var i := 0;
      while i < |journals|
        invariant 0 <= i <= |journals| && balance == BalanceAsOf(journals[..i], a, asOf)
      {
        assert journals[..i + 1][..i] == journals[..i];
        if !(asOf.Some? && journals[i].postedAt > asOf.value) {
          var net := NetOf(journals[i].postings, a);
          balance := balance + net;
        }
        i := i + 1;
      }
      assert journals[..i] == journals;
    }

    method NetOf(ps: seq<Posting>, a: AccountKey) returns (net: int)
      ensures net == Net(ps, a)
    {
      net := 0;
      var k := 0;
      while k < |ps|
        invariant 0 <= k <= |ps| && net == Net(ps[..k], a)
      {
        assert ps[..k + 1][..k] == ps[..k];
        if ps[k].account == a {
          net := net + if ps[k].side == CR then ps[k].amount else 0 - ps[k].amount as int;
        }
        k := k + 1;
      }
      assert ps[..k] == ps;
    }

    /** `verifyDayChain`; its query fails on a date the database cannot read. */
    method VerifyDayChain(date: string) returns (r: Result<Verdict, LedgerError>)
      ensures r == match dates.read(date)
        case Some(day) => Ok(VerifyFrom(sha256, LinksOf(dates, DayOf(journals, day)), 0, GENESIS))
        case None => Err(DateInvalid)
    {
      var read := dates.read(date);
      if read.None? {
        return Err(DateInvalid);
      }
      var day := DayOf(journals, read.value);
      var prev := GENESIS;
      var i := 0;
      while i < |day|
        invariant 0 <= i <= |day|
        invariant VerifyFrom(sha256, LinksOf(dates, day), 0, GENESIS)
          == VerifyFrom(sha256, LinksOf(dates, day), i, prev)
      {
        if day[i].prevHash != prev {
          return Ok(Broken(i, PrevMismatch));
        }
        var expected := ChainHash(sha256, prev, StoredText(dates, day[i]));
        if expected != day[i].hash {
          return Ok(Broken(i, HashMismatch));
        }
        prev := day[i].hash;
        i := i + 1;
      }
      return Ok(Verified(|day|));
    }
  }
}
