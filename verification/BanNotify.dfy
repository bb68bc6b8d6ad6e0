/**
  Which detected bans are announced: the recency gate and the file of reported bans in `src/webhook.rs`.
  How a ban is identified (its id, or a stand-in) is a parameter.
 */
module BanNotify {
  import opened Wrappers
  import opened Text
  import opened BanAge
  import BanText

  /** For each account, in lower case, the ban reported last. */
  type Reported = map<string, string>

  predicate AlreadyReported(reported: Reported, account: string, identity: string) {
    ToLower(account) in reported && reported[ToLower(account)] == identity
  }

  /** One detected ban, and whether it is judged recent. */
  datatype Detection = Detection(account: string, identity: string, recent: bool)

  predicate Announces(reported: Reported, d: Detection) {
    d.recent && !AlreadyReported(reported, d.account, d.identity)
  }

  function After(reported: Reported, d: Detection): Reported {
    if Announces(reported, d) then reported[ToLower(d.account) := d.identity] else reported
  }

  /** The file of reported bans. */
  class BanLedger {
    var reported: Reported

    /** `claim_ban_notification`. */
    method Claim(account: string, identity: string) returns (claimed: bool)
      modifies this
      ensures claimed <==> !AlreadyReported(old(reported), account, identity)
      ensures reported == old(reported)[ToLower(account) := identity]
    {
      var key := ToLower(account);
      if key in reported && reported[key] == identity {
        assert reported == reported[key := identity];
        return false;
      }
      reported := reported[key := identity];
      return true;
    }

    /** `should_notify_ban`, on the parsed ban's identity and duration. */
    method ShouldNotify(account: string, identity: string, duration: Option<string>, limit: nat)
      returns (announced: bool)
      modifies this
      ensures var d := Detection(account, identity, IsRecent(duration, limit));
              announced == Announces(old(reported), d) && reported == After(old(reported), d)
    {
      if !IsRecent(duration, limit) {
        return false;
      }
      announced := Claim(account, identity);
      if !announced {
        assert reported == old(reported);
      }
    }
  }

  // ----- Runs of detections -----

  function AfterAll(reported: Reported, run: seq<Detection>): Reported {
    if run == [] then reported else After(AfterAll(reported, run[..|run| - 1]), run[|run| - 1])
  }

  predicate AnnouncedAt(reported: Reported, run: seq<Detection>, k: nat)
    requires k < |run|
  {
    Announces(AfterAll(reported, run[..k]), run[k])
  }

  predicate SameAccount(a: Detection, b: Detection) { ToLower(a.account) == ToLower(b.account) }

  /** After detection `k` was announced, and nothing else of its account until `n`, its ban is the one on file. */
  lemma {:induction false} StaysOnFile(reported: Reported, run: seq<Detection>, k: nat, n: nat)
    requires k < n <= |run| && AnnouncedAt(reported, run, k)
    requires forall m :: k < m < n && SameAccount(run[m], run[k]) ==> !AnnouncedAt(reported, run, m)
    ensures AlreadyReported(AfterAll(reported, run[..n]), run[k].account, run[k].identity)
    decreases n
  {
    var m := n - 1;
    assert run[..n][..m] == run[..m] && run[..n][m] == run[m];
    if k < m {
      StaysOnFile(reported, run, k, m);
    }
  }

  /** Between two announcements of the same ban of an account stands one of another ban of it. */
  lemma {:induction false} NoRepeatedAnnouncement(reported: Reported, run: seq<Detection>, i: nat, j: nat)
    requires i < j < |run| && AnnouncedAt(reported, run, i) && AnnouncedAt(reported, run, j)
    requires SameAccount(run[i], run[j]) && run[i].identity == run[j].identity
    ensures exists k :: i < k < j && AnnouncedAt(reported, run, k)
                        && SameAccount(run[k], run[i]) && run[k].identity != run[i].identity
    decreases j - i
  {
    if forall m :: i < m < j && SameAccount(run[m], run[i]) ==> !AnnouncedAt(reported, run, m) {
      StaysOnFile(reported, run, i, j);
      assert false;
    }
    var k :| i < k < j && SameAccount(run[k], run[i]) && AnnouncedAt(reported, run, k);
    if run[k].identity == run[i].identity {
      NoRepeatedAnnouncement(reported, run, i, k);
    }
  }

  /** Detection `j` is the last one before `n` announced for the account, whatever the letter case of its name. */
  predicate LastAnnounced(run: seq<Detection>, j: nat, n: nat, account: string)
    requires n <= |run|
  {
    && j < n && AnnouncedAt(map[], run, j) && SameUpToCase(run[j].account, account)
    && forall m :: j < m < n && SameUpToCase(run[m].account, account) ==> !AnnouncedAt(map[], run, m)
  }

  ghost predicate LastWas(run: seq<Detection>, n: nat, account: string, identity: string)
    requires n <= |run|
  {
    exists j: nat :: LastAnnounced(run, j, n, account) && run[j].identity == identity
  }

  /** What one more detection changes about the last announcement. */
  lemma {:induction false} LastWasNext(run: seq<Detection>, n: nat, account: string, identity: string)
    requires n < |run|
    ensures LastWas(run, n + 1, account, identity)
            <==> if AnnouncedAt(map[], run, n) && SameUpToCase(run[n].account, account)
                 then run[n].identity == identity else LastWas(run, n, account, identity)
  {
    var next := n + 1;
    if AnnouncedAt(map[], run, n) && SameUpToCase(run[n].account, account) {
      assert LastAnnounced(run, n, next, account);
      assert forall j: nat :: LastAnnounced(run, j, next, account) ==> j == n;
    } else {
      assert forall j: nat :: LastAnnounced(run, j, next, account) <==> LastAnnounced(run, j, n, account);
    }
  }

  lemma {:induction false} OnFileExactly(run: seq<Detection>, n: nat, account: string, identity: string)
    requires n <= |run|
    ensures AlreadyReported(AfterAll(map[], run[..n]), account, identity) <==> LastWas(run, n, account, identity)
    decreases n
  {
    if n > 0 {
      var m := n - 1;
      assert run[..n][..m] == run[..m] && run[..n][m] == run[m];
      OnFileExactly(run, m, account, identity);
      LastWasNext(run, m, account, identity);
      ToLowerAgrees(run[m].account, account);
    } else {
      assert run[..0] == [];
    }
  }

  /** From an empty file on, a detection is announced exactly when it is recent and not the ban its account had last. */
  lemma {:induction false} AnnouncedExactly(run: seq<Detection>, k: nat)
    requires k < |run|
    ensures AnnouncedAt(map[], run, k) <==> run[k].recent && !LastWas(run, k, run[k].account, run[k].identity)
  {
    OnFileExactly(run, k, run[k].account, run[k].identity);
  }

  /**
    End to end: in a disconnect message whose first duration-like text is the printed remaining time of a
    ladder-length ban issued `elapsed` seconds ago, the ban is announced exactly when `elapsed` is within the limit
    and it is not the ban reported last for the account.
   */
  lemma {:induction false} AnnouncedExactlyWhileYoung(
    fillers: seq<string>, strings: seq<string>, at: nat, rung: nat, elapsed: nat, remaining: u64, limit: nat,
    p: BanText.Printable, reported: Reported, account: string, identity: string)
    requires |fillers| == |strings| + 1 && at < |strings|
    requires forall s :: s in strings ==> BanText.AllPlain(s)
    requires forall f :: f in fillers ==> !Contains(f, BanText.PREFIX)
    requires rung < 4 && remaining + elapsed == Issued(rung) && elapsed < Issued(rung) - PreviousRung(rung)
    requires strings[at] == TimeLeft(remaining)
    requires forall i :: 0 <= i < at ==> !LooksLikeDuration(strings[i])
    ensures var duration := DurationIn(BanText.Extract(BanText.Render(fillers, strings, p), 0));
            Announces(reported, Detection(account, identity, IsRecent(duration, limit)))
            <==> elapsed <= limit && !AlreadyReported(reported, account, identity)
  {
    JudgedRecentWhileYoung(fillers, strings, at, rung, elapsed, remaining, limit, p);
  }
}
