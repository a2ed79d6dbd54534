/** The list of administrator emails and the start-up step that grants them the ADMIN role. */
module AdminEmails {
  import opened Options
  import opened Sequences
  import opened Text
  import opened Ordering

  /** The replacer's separators. */
  predicate IsSeparator(c: char) {
    c == ';' || c == '\n' || c == '\t'
  }

  function Normalize(raw: string): (r: string)
    ensures |r| == |raw|
    ensures forall i :: 0 <= i < |raw| ==> r[i] == if IsSeparator(raw[i]) then ',' else raw[i]
  {
    seq(|raw|, i requires 0 <= i < |raw| => if IsSeparator(raw[i]) then ',' else raw[i])
  }

  function EmailOf(token: string): string {
    Lower(Trim(token))
  }

  /** The emails one variable lists. */
  function Emails(raw: string): set<string> {
    set t | t in Split(Normalize(raw), ',') && EmailOf(t) != "" :: EmailOf(t)
  }

  function AllEmails(raws: seq<string>): set<string> {
    set r, e | r in raws && e in Emails(r) :: e
  }

  lemma AllEmailsStep(raws: seq<string>, i: nat)
    requires i < |raws|
    ensures AllEmails(raws[..i + 1]) == AllEmails(raws[..i]) + Emails(raws[i])
  {
  }

  /** Comma, semicolon, line feed and tab all separate emails. */
  lemma EmailsOfConcat(a: string, sep: char, b: string)
    requires sep in ",;\n\t"
    ensures Emails(a + [sep] + b) == Emails(a) + Emails(b)
  {
    assert IsSeparator(sep) || sep == ',';
    assert Normalize(a + [sep] + b) == Normalize(a) + [','] + Normalize(b);
    SplitConcat(Normalize(a), ',', Normalize(b));
    hide Split, EmailOf;
  }

  /** A text without separators lists one email: itself without surrounding whitespace, in lower case; or none. */
  lemma EmailsOfOne(pad: string, core: string, pad': string)
    requires Blank(pad) && Blank(pad') && forall c :: c in pad + core + pad' ==> c !in ",;\n\t"
    requires core != "" ==> core[0] !in WHITESPACE && core[|core| - 1] !in WHITESPACE
    ensures Emails(pad + core + pad') == if core == "" then {} else {Lower(core)}
  {
    var t := pad + core + pad';
    forall i | 0 <= i < |t| ensures !IsSeparator(t[i]) && t[i] != ',' {
      assert t[i] in t;
      assert ';' in ",;\n\t" && '\n' in ",;\n\t" && '\t' in ",;\n\t" && ',' in ",;\n\t";
    }
    assert Normalize(t) == t;
    SplitUnbroken(t, ',');
    TrimPadded(pad, core, pad');
    assert EmailOf(t) == Lower(core) && (Lower(core) == "" <==> core == "");
    OneToken(t);
  }

  lemma OneToken(t: string)
    requires Split(Normalize(t), ',') == [t]
    ensures Emails(t) == if EmailOf(t) == "" then {} else {EmailOf(t)}
  {
    hide Split, EmailOf;
    assert forall x :: x in [t] <==> x == t;
    if EmailOf(t) != "" {
      assert t in Split(Normalize(t), ',') && EmailOf(t) in Emails(t);
    }
  }

  method ParseAdminEmails(raws: seq<string>) returns (result: seq<string>)
    ensures Ascending(result, StrLe) && Elements(result) == AllEmails(raws)
  {
    var emails: set<string> := {};
    for i := 0 to |raws|
      invariant emails == AllEmails(raws[..i])
    {
      var tokens := Split(Normalize(raws[i]), ',');
      ghost var before := emails;
      for j := 0 to |tokens|
        invariant emails == before + set t | t in tokens[..j] && EmailOf(t) != "" :: EmailOf(t)
      {
        var email := EmailOf(tokens[j]);
        assert tokens[..j + 1] == tokens[..j] + [tokens[j]];
        if email == "" {
          continue;
        }
        emails := emails + {email};
      }
      assert tokens[..|tokens|] == tokens;
      AllEmailsStep(raws, i);
    }
    assert raws[..|raws|] == raws;
    StrLeIsTotalOrder();
    result := SortedSet(emails, StrLe);
  }

  /** The result depends only on which values are given, not on their order or repetition. */
  lemma ArgumentOrderIrrelevant(raws: seq<string>, raws': seq<string>, result: seq<string>, result': seq<string>)
    requires Elements(raws) == Elements(raws')
    requires Ascending(result, StrLe) && Elements(result) == AllEmails(raws)
    requires Ascending(result', StrLe) && Elements(result') == AllEmails(raws')
    ensures result == result'
  {
    assert forall r :: r in raws <==> r in Elements(raws);
    assert forall r :: r in raws' <==> r in Elements(raws');
    StrLeIsTotalOrder();
    AscendingIsUnique(result, result', StrLe);
  }

  /** An email the parser can return: trimmed, lower-case, not empty, and free of separators. */
  predicate CleanEmail(e: string) {
    e != "" && Trimmed(e) && Lower(e) == e && forall c :: c in e ==> c != ',' && !IsSeparator(c)
  }

  lemma ParsedEmailsAreClean(raw: string)
    ensures forall e :: e in Emails(raw) ==> CleanEmail(e)
  {
    forall e | e in Emails(raw) ensures CleanEmail(e) {
      var t :| t in Split(Normalize(raw), ',') && EmailOf(t) == e && e != "";
      SplitHasNoSeparator(Normalize(raw), ',');
      TokenIsClean(t);
    }
  }

  lemma TokenIsClean(t: string)
    requires EmailOf(t) != "" && forall c :: c in t ==> c != ',' && !IsSeparator(c)
    ensures CleanEmail(EmailOf(t))
  {
    var i, j := TrimSlice(t);
    var trimmed := t[i..j];
    LowerIdempotent(trimmed);
    forall k | 0 <= k < |trimmed|
      ensures LowerChar(trimmed[k]) != ',' && !IsSeparator(LowerChar(trimmed[k]))
      ensures IsSpace(LowerChar(trimmed[k])) <==> IsSpace(trimmed[k])
    {
      assert trimmed[k] == t[i + k] && t[i + k] in t;
    }
  }

  lemma CleanIsFixed(e: string)
    requires CleanEmail(e)
    ensures EmailOf(e) == e
  {
  }

  lemma {:induction false} JoinIsNormal(emails: seq<string>)
    requires forall e :: e in emails ==> CleanEmail(e)
    ensures Normalize(Join(emails, ",")) == Join(emails, ",")
  {
    assert emails != [] ==> emails[0] in emails;
    if |emails| > 1 {
      JoinIsNormal(emails[1..]);
      var joined, first, others := Join(emails, ","), emails[0], Join(emails[1..], ",");
      assert joined == first + "," + others;
      forall i | 0 <= i < |joined| ensures !IsSeparator(joined[i]) {
        if i < |first| {
          assert joined[i] == first[i] && first[i] in first;
        } else if i > |first| {
          assert joined[i] == others[i - |first| - 1];
          assert Normalize(others)[i - |first| - 1] == others[i - |first| - 1];
        }
      }
    } else if |emails| == 1 {
      assert forall i :: 0 <= i < |emails[0]| ==> emails[0][i] in emails[0];
    }
  }

  /** The emails of a joined list of clean emails are that list. */
  lemma EmailsOfJoin(emails: seq<string>)
    requires forall e :: e in emails ==> CleanEmail(e)
    ensures Emails(Join(emails, ",")) == Elements(emails)
  {
    JoinIsNormal(emails);
    var tokens := Split(Join(emails, ","), ',');
    if emails != [] {
      forall e | e in emails ensures ',' !in e { }
      SplitJoin(emails, ',');
      forall e | e in emails ensures EmailOf(e) == e {
        CleanIsFixed(e);
      }
    } else {
      assert tokens == [""];
      assert EmailOf("") == "";
    }
  }

  /** Re-parsing the comma-joined output of the parser gives the same list. */
  method ParseTwice(raws: seq<string>) returns (once: seq<string>, twice: seq<string>)
    ensures Ascending(once, StrLe) && Elements(once) == AllEmails(raws)
    ensures twice == once
  {
    once := ParseAdminEmails(raws);
    forall e | e in once ensures CleanEmail(e) {
      assert e in Elements(once);
      var r :| r in raws && e in Emails(r);
      ParsedEmailsAreClean(r);
    }
    twice := ParseAdminEmails([Join(once, ",")]);
    EmailsOfJoin(once);
    StrLeIsTotalOrder();
    AscendingIsUnique(once, twice, StrLe);
  }

  /** `UserRole.normalize` compared with ADMIN. */
  predicate IsAdmin(role: string) {
    Upper(Trim(role)) == "ADMIN"
  }

  /** A role is ADMIN whatever its case and the whitespace around it. */
  lemma IsAdminIff(pad: string, core: string, pad': string)
    requires Blank(pad) && Blank(pad')
    requires core != "" ==> core[0] !in WHITESPACE && core[|core| - 1] !in WHITESPACE
    ensures IsAdmin(pad + core + pad') <==> Upper(core) == "ADMIN"
  {
    TrimPadded(pad, core, pad');
  }

  predicate NeedsGrant(users: map<string, string>, email: string) {
    email in users && !IsAdmin(users[email])
  }

  function NeedsGrantIn(users: map<string, string>): string -> bool {
    (email: string) => NeedsGrant(users, email)
  }

  /** The users after the listed ones were made administrators. */
  function Granted(users: map<string, string>, emails: seq<string>): map<string, string> {
    map e | e in users :: if e in emails && !IsAdmin(users[e]) then "ADMIN" else users[e]
  }

  /** Which lookups and updates fail, other than by not finding the user. */
  datatype Faults = Faults(lookup: string -> bool, update: string -> bool)

  predicate Fails(users: map<string, string>, email: string, faults: Faults) {
    faults.lookup(email) || (NeedsGrant(users, email) && faults.update(email))
  }

  /** The loop ends at the first email that fails, or at none. */
  ghost predicate FirstFault(users: map<string, string>, emails: seq<string>, faults: Faults, failedAt: Option<nat>) {
    match failedAt
    case None => forall i :: 0 <= i < |emails| ==> !Fails(users, emails[i], faults)
    case Some(k) =>
      k < |emails| && Fails(users, emails[k], faults) && forall i :: 0 <= i < k ==> !Fails(users, emails[i], faults)
  }

  function Processed(emails: seq<string>, failedAt: Option<nat>): seq<string> {
    if failedAt.Some? && failedAt.value <= |emails| then emails[..failedAt.value] else emails
  }

  class UserRepository {
    var users: map<string, string>   // role by email
    var updated: seq<string>         // every update, in order

    constructor (users: map<string, string>)
      ensures this.users == users && updated == []
    {
      this.users, updated := users, [];
    }

    /** The loop over the emails: the first lookup or update that fails ends it. */
    method GrantAll(adminEmails: seq<string>, faults: Faults) returns (failedAt: Option<nat>)
      requires forall i, j :: 0 <= i < j < |adminEmails| ==> adminEmails[i] != adminEmails[j]
      modifies this
      ensures FirstFault(old(users), adminEmails, faults, failedAt)
      ensures var processed := Processed(adminEmails, failedAt);
              && users == Granted(old(users), processed)
              && updated == old(updated) + Filter(processed, NeedsGrantIn(old(users)))
    {
      GrantNone(users);
      hide IsAdmin, Granted, Filter, NeedsGrant, NeedsGrantIn;
      for n := 0 to |adminEmails|
        invariant users == Granted(old(users), adminEmails[..n])
        invariant updated == old(updated) + Filter(adminEmails[..n], NeedsGrantIn(old(users)))
        invariant forall i :: 0 <= i < n ==> !Fails(old(users), adminEmails[i], faults)
      {
        var email := adminEmails[n];
        GrantStep(old(users), adminEmails, n);
        ConcatAssociates(old(updated), Filter(adminEmails[..n], NeedsGrantIn(old(users))), [email]);
        if faults.lookup(email) {
          return Some(n);
        }
        if email !in users {
          continue;
        }
        if IsAdmin(users[email]) {
          continue;
        }
        if faults.update(email) {
          return Some(n);
        }
        users := users[email := "ADMIN"];
        updated := updated + [email];
      }
      assert adminEmails[..|adminEmails|] == adminEmails;
      failedAt := None;
    }

    /** `bootstrapAdminRoles`, with the two environment variables as parameters. */
    method BootstrapAdminRoles(catalogAdminEmails: string, adminEmails: string, faults: Faults)
      returns (failedAt: Option<nat>, ghost emails: seq<string>)
      modifies this
      ensures Ascending(emails, StrLe) && Elements(emails) == AllEmails([catalogAdminEmails, adminEmails])
      ensures FirstFault(old(users), emails, faults, failedAt)
      ensures var processed := Processed(emails, failedAt);
              && users == Granted(old(users), processed)
              && updated == old(updated) + Filter(processed, NeedsGrantIn(old(users)))
    {
      var parsed := ParseAdminEmails([catalogAdminEmails, adminEmails]);
      emails := parsed;
      AscendingIsDistinct(parsed);
      failedAt := GrantAll(parsed, faults);
    }

    /** After an error-free run, another run updates nobody, whatever fails in it. */
    method BootstrapTwice(catalogAdminEmails: string, adminEmails: string, faults: Faults, later: Faults)
      returns (first: Option<nat>, ghost once: seq<string>)
      modifies this
      ensures first.None? ==> updated == once
    {
      ghost var emails, again;
      first, emails := BootstrapAdminRoles(catalogAdminEmails, adminEmails, faults);
      once := updated;
      var second;
      second, again := BootstrapAdminRoles(catalogAdminEmails, adminEmails, later);
      StrLeIsTotalOrder();
      AscendingIsUnique(emails, again, StrLe);
      if first.None? {
        NobodyLeft(old(users), emails, Processed(again, second));
      }
    }
  }

  lemma AscendingIsDistinct(emails: seq<string>)
    requires Ascending(emails, StrLe)
    ensures forall i, j :: 0 <= i < j < |emails| ==> emails[i] != emails[j]
  {
  }

  lemma GrantNone(users: map<string, string>)
    ensures Granted(users, []) == users && Filter([], NeedsGrantIn(users)) == []
  {
  }

  lemma GrantOneMore(users: map<string, string>, emails: seq<string>, e: string)
    requires e !in emails
    ensures var now := Granted(users, emails);
            && (NeedsGrant(users, e) <==> e in now && !IsAdmin(now[e]))
            && Granted(users, emails + [e]) == (if NeedsGrant(users, e) then now[e := "ADMIN"] else now)
  {
  }

  lemma GrantStep(users: map<string, string>, emails: seq<string>, n: nat)
    requires n < |emails| && forall i, j :: 0 <= i < j < |emails| ==> emails[i] != emails[j]
    ensures var now, e := Granted(users, emails[..n]), emails[n];
            && (NeedsGrant(users, e) <==> e in now && !IsAdmin(now[e]))
            && Granted(users, emails[..n + 1]) == (if NeedsGrant(users, e) then now[e := "ADMIN"] else now)
            && Filter(emails[..n + 1], NeedsGrantIn(users)) ==
                 Filter(emails[..n], NeedsGrantIn(users)) + if NeedsGrant(users, e) then [e] else []
  {
    FilterStep(emails, n, NeedsGrantIn(users));
    hide IsAdmin, Filter, Granted;
    assert emails[..n + 1] == emails[..n] + [emails[n]];
    assert emails[n] !in emails[..n];
    GrantOneMore(users, emails[..n], emails[n]);
  }

  lemma AdminIsAdmin()
    ensures IsAdmin("ADMIN")
  {
  }

  /** An error-free run makes administrators of exactly the listed existing users, and changes no one else. */
  lemma GrantedAdmins(users: map<string, string>, emails: seq<string>, e: string)
    ensures var after := Granted(users, emails);
            && after.Keys == users.Keys
            && (e in users ==> (IsAdmin(after[e]) <==> IsAdmin(users[e]) || e in emails))
            && (e in users && !(e in emails && !IsAdmin(users[e])) ==> after[e] == users[e])
  {
    AdminIsAdmin();
  }

  lemma {:induction false} NobodyLeft(users: map<string, string>, emails: seq<string>, processed: seq<string>)
    requires forall e :: e in processed ==> e in emails
    ensures Filter(processed, NeedsGrantIn(Granted(users, emails))) == []
  {
    if processed != [] {
      NobodyLeft(users, emails, processed[..|processed| - 1]);
      GrantedAdmins(users, emails, processed[|processed| - 1]);
    }
  }
}
