/** Logins of different accounts and of different protectors never touch each other's counters and locks. */
module LoginIsolation {
  import opened LoginProtection
  import opened Redis
  import opened Text
  import opened Wrappers

  // ---------- Keys ----------

  /** The user name in lower case and the address, both trimmed; a missing address is "unknown". */
  function BuildCacheKey(namespace: string, username: string, ip: string): string {
    var address := if TrimSpace(ip) == "" then "unknown" else TrimSpace(ip);
    namespace + "-login:" + ToLower(TrimSpace(username)) + ":" + address
  }

  lemma SamePrefix(prefix: string, a: string, b: string)
    requires prefix + a == prefix + b
    ensures a == b
  {
    assert (prefix + a)[|prefix|..] == a && (prefix + b)[|prefix|..] == b;
  }

  /** An attempt key is never a lock key, whatever the accounts. */
  lemma AttemptIsNotLock(p: Protector, a: string, b: string)
    ensures p.AttemptKey(a) != p.LockKey(b)
  {
    var i := |"auth:" + p.namespace + ":login:"|;
    assert p.AttemptKey(a)[i] == 'a';
    assert p.LockKey(b)[i] == 'l';
  }

  /** Keys of different accounts never meet. */
  lemma AccountsApart(p: Protector, a: string, b: string)
    requires a != b
    ensures p.AttemptKey(a) != p.AttemptKey(b) && p.LockKey(a) != p.LockKey(b)
    ensures p.AttemptKey(a) != p.LockKey(b) && p.LockKey(a) != p.AttemptKey(b)
  {
    var attempt, lock := "auth:" + p.namespace + ":login:attempt:", "auth:" + p.namespace + ":login:lock:";
    AttemptIsNotLock(p, a, b);
    AttemptIsNotLock(p, b, a);
    if attempt + a == attempt + b {
      SamePrefix(attempt, a, b);
    }
    if lock + a == lock + b {
      SamePrefix(lock, a, b);
    }
  }

  lemma KeyText(p: Protector, a: string)
    ensures p.AttemptKey(a) == "auth:" + (p.namespace + [':'] + ("login:attempt:" + a))
    ensures p.LockKey(a) == "auth:" + (p.namespace + [':'] + ("login:lock:" + a))
  {
  }

  lemma NamespaceOf(n: string, x: string, m: string, y: string)
    requires ':' !in n && ':' !in m && "auth:" + (n + [':'] + x) == "auth:" + (m + [':'] + y)
    ensures n == m
  {
    SamePrefix("auth:", n + [':'] + x, m + [':'] + y);
    BeforeAgrees(n, x, m, y, ':');
  }

  /** Protectors of different namespaces never meet, whatever the accounts; their names hold no colon. */
  lemma NamespacesApart(p: Protector, q: Protector, a: string, b: string)
    requires ':' !in p.namespace && ':' !in q.namespace && p.namespace != q.namespace
    ensures p.AttemptKey(a) != q.AttemptKey(b) && p.LockKey(a) != q.LockKey(b)
    ensures p.AttemptKey(a) != q.LockKey(b)
  {
    KeyText(p, a);
    KeyText(q, b);
    if p.AttemptKey(a) == q.AttemptKey(b) {
      NamespaceOf(p.namespace, "login:attempt:" + a, q.namespace, "login:attempt:" + b);
    }
    if p.LockKey(a) == q.LockKey(b) {
      NamespaceOf(p.namespace, "login:lock:" + a, q.namespace, "login:lock:" + b);
    }
    if p.AttemptKey(a) == q.LockKey(b) {
      NamespaceOf(p.namespace, "login:attempt:" + a, q.namespace, "login:lock:" + b);
    }
  }

  /** Spelling a user name in another case or with blanks around it does not make another account. */
  lemma SpellingDoesNotMatter(namespace: string, username: string, other: string, ip: string)
    requires ToLower(TrimSpace(username)) == ToLower(TrimSpace(other))
    ensures BuildCacheKey(namespace, username, ip) == BuildCacheKey(namespace, other, ip)
    ensures BuildCacheKey(namespace, username, ip) == BuildCacheKey(namespace, username, TrimSpace(ip))
    ensures BuildCacheKey(namespace, username, "") == BuildCacheKey(namespace, username, "unknown")
  {
    TrimSpaceFixes(ip);
    TrimSpaceFixes(TrimSpace(ip));
    TrimSpaceFixes("unknown");
  }

  lemma CacheKeyText(namespace: string, username: string, ip: string)
    requires TrimSpace(ip) != ""
    ensures BuildCacheKey(namespace, username, ip)
            == (namespace + "-login:") + (ToLower(TrimSpace(username)) + [':'] + TrimSpace(ip))
  {
  }

  /** Different names or different addresses are different accounts, for user names without a colon. */
  lemma CacheKeysApart(namespace: string, username: string, ip: string, username': string, ip': string)
    requires ':' !in TrimSpace(username) && ':' !in TrimSpace(username')
    requires TrimSpace(ip) != "" && TrimSpace(ip') != ""
    requires BuildCacheKey(namespace, username, ip) == BuildCacheKey(namespace, username', ip')
    ensures ToLower(TrimSpace(username)) == ToLower(TrimSpace(username')) && TrimSpace(ip) == TrimSpace(ip')
  {
    var u, u' := ToLower(TrimSpace(username)), ToLower(TrimSpace(username'));
    LowerKeepsColons(TrimSpace(username));
    LowerKeepsColons(TrimSpace(username'));
    CacheKeyText(namespace, username, ip);
    CacheKeyText(namespace, username', ip');
    SamePrefix(namespace + "-login:", u + [':'] + TrimSpace(ip), u' + [':'] + TrimSpace(ip'));
    BeforeAgrees(u, TrimSpace(ip), u', TrimSpace(ip'), ':');
  }

  lemma LowerKeepsColons(s: string)
    ensures ':' in ToLower(s) <==> ':' in s
  {
    assert forall i :: 0 <= i < |s| ==> (ToLower(s)[i] == ':' <==> s[i] == ':');
  }

  /** With a colon in the name it is otherwise: the text after it may as well belong to the address. */
  lemma ColonMovesOver(namespace: string, x: string, y: string, z: string)
    requires Trimmed(x + ":" + y) && Trimmed(x) && Trimmed(z) && Trimmed(y + ":" + z) && IsLower(x) && IsLower(y)
             && z != ""
    ensures BuildCacheKey(namespace, x + ":" + y, z) == BuildCacheKey(namespace, x, y + ":" + z)
  {
    TrimSpaceFixes(x + ":" + y);
    TrimSpaceFixes(x);
    TrimSpaceFixes(z);
    TrimSpaceFixes(y + ":" + z);
    ToLowerFixes(x + ":" + y);
    ToLowerFixes(x);
    assert x + ":" + y + ":" + z == x + ":" + (y + ":" + z);
    var start := namespace + "-login:";
    assert start + (x + ":" + y) + ":" + z == start + x + ":" + (y + ":" + z);
  }

  /** Another user name and address that share the key of these. */
  predicate Shares(namespace: string, name: string, ip: string, name': string, ip': string) {
    && TrimSpace(ip') != "" && BuildCacheKey(namespace, name, ip) == BuildCacheKey(namespace, name', ip')
    && (ToLower(TrimSpace(name)) != ToLower(TrimSpace(name')) || TrimSpace(ip) != TrimSpace(ip'))
  }

  predicate Plain(s: string) {
    IsLower(s) && forall c :: c in s ==> !IsSpace(c)
  }

  lemma PlainFixed(s: string)
    requires Plain(s)
    ensures Trimmed(s) && TrimSpace(s) == s && ToLower(s) == s
  {
    TrimSpaceFixes(s);
    ToLowerFixes(s);
  }

  /** A text that falls into two parts at more than one colon. */
  lemma ColonOf(x: string, z: string, x': string, z': string)
    requires x + [':'] + z == x' + [':'] + z' && (x != x' || z != z') && z != "" && z' != ""
    ensures ':' in x || ':' in z[..|z| - 1]
  {
    var whole := x + [':'] + z;
    assert whole == x' + [':'] + z' && whole[|x'|] == ':';
    assert whole[..|x|] == x && whole[|x| + 1..] == z && whole[..|x'|] == x' && whole[|x'| + 1..] == z';
    if |x'| < |x| {
      assert x[|x'|] == ':';
    } else if |x'| > |x| {
      var i := |x'| - |x| - 1;
      assert z[i] == whole[|x'|] && i < |z| - 1;
      assert z[..|z| - 1][i] == ':';
    }
  }

  lemma SharesByColon(namespace: string, x: string, y: string, z: string)
    requires Plain(x) && Plain(y) && Plain(z) && z != ""
    ensures Shares(namespace, x + ":" + y, z, x, y + ":" + z) && Shares(namespace, x, y + ":" + z, x + ":" + y, z)
  {
    assert Plain(x + ":" + y) && Plain(y + ":" + z);
    PlainFixed(x);
    PlainFixed(z);
    PlainFixed(x + ":" + y);
    PlainFixed(y + ":" + z);
    ColonMovesOver(namespace, x, y, z);
    assert |x + ":" + y| > |x|;
  }

  lemma SplitAtColon(s: string, k: nat)
    requires k < |s| && s[k] == ':' && Plain(s)
    ensures s == s[..k] + ":" + s[k + 1..] && Plain(s[..k]) && Plain(s[k + 1..])
  {
  }

  /** Exactly when some other user name or address shares the key: a colon in the name, or inside the address. */
  lemma SharedExactly(namespace: string, name: string, ip: string)
    requires Plain(name) && Plain(ip) && ip != ""
    ensures (exists name', ip' :: Shares(namespace, name, ip, name', ip')) <==> ':' in name || ':' in ip[..|ip| - 1]
  {
    PlainFixed(name);
    PlainFixed(ip);
    if name', ip' :| Shares(namespace, name, ip, name', ip') {
      var x', z' := ToLower(TrimSpace(name')), TrimSpace(ip');
      CacheKeyText(namespace, name, ip);
      CacheKeyText(namespace, name', ip');
      SamePrefix(namespace + "-login:", name + [':'] + ip, x' + [':'] + z');
      ColonOf(name, ip, x', z');
    }
    if k :| 0 <= k < |name| && name[k] == ':' {
      SplitAtColon(name, k);
      SharesByColon(namespace, name[..k], name[k + 1..], ip);
    }
    if k :| 0 <= k < |ip| - 1 && ip[k] == ':' {
      SplitAtColon(ip, k);
      SharesByColon(namespace, name, ip[..k], ip[k + 1..]);
    }
  }

  // ---------- One account's steps leave the others alone ----------

  /** Both tables say the same of the account's counter and lock. */
  predicate Agree(p: Protector, cacheKey: string, t: Table, t': Table) {
    && SameAt(t, t', p.AttemptKey(cacheKey))
    && SameAt(t, t', p.LockKey(cacheKey))
  }

  predicate SameAt(t: Table, t': Table, key: string) {
    (key in t <==> key in t') && (key in t ==> t[key] == t'[key])
  }

  /** What happens at a login form: a failing attempt, or a success, which clears. */
  datatype Login = Fail(cacheKey: string, attempt: Attempt) | Success(cacheKey: string)

  function After(p: Protector, t: Table, e: Login): Table {
    match e
    case Fail(cacheKey, a) => Attempted(p, cacheKey, t, a).0
    case Success(cacheKey) => t - {p.AttemptKey(cacheKey), p.LockKey(cacheKey)}
  }

  function AfterAll(p: Protector, start: Table, run: seq<Login>): Table {
    if run == [] then start else After(p, AfterAll(p, start, run[..|run| - 1]), run[|run| - 1])
  }

  /** What happens to one account. */
  function Own(run: seq<Login>, cacheKey: string): seq<Login> {
    if run == [] then []
    else
      var own, last := Own(run[..|run| - 1], cacheKey), run[|run| - 1];
      if last.cacheKey == cacheKey then own + [last] else own
  }

  lemma OthersUntouched(p: Protector, t: Table, e: Login, other: string)
    requires e.cacheKey != other
    ensures Agree(p, other, After(p, t, e), t)
  {
    AccountsApart(p, e.cacheKey, other);
    AttemptIsNotLock(p, e.cacheKey, e.cacheKey);
  }

  /** An account's verdict and its new state depend on nothing but its own counter and lock. */
  lemma OwnStateDecides(p: Protector, cacheKey: string, t: Table, t': Table, a: Attempt)
    requires Agree(p, cacheKey, t, t')
    ensures Attempted(p, cacheKey, t, a).1 == Attempted(p, cacheKey, t', a).1
    ensures Agree(p, cacheKey, Attempted(p, cacheKey, t, a).0, Attempted(p, cacheKey, t', a).0)
    ensures Remaining(t, a.check, p.LockKey(cacheKey)) == Remaining(t', a.check, p.LockKey(cacheKey))
    ensures Recorded(p, cacheKey, t, a).1 == Recorded(p, cacheKey, t', a).1
  {
    AttemptIsNotLock(p, cacheKey, cacheKey);
  }

  lemma SuccessAgrees(p: Protector, t: Table, t': Table, cacheKey: string)
    requires Agree(p, cacheKey, t, t')
    ensures Agree(p, cacheKey, After(p, t, Success(cacheKey)), After(p, t', Success(cacheKey)))
  {
  }

  /** After any run of logins of any accounts, each account stands as if only its own logins had been. */
  lemma {:induction false} AccountsAreIndependent(p: Protector, start: Table, run: seq<Login>, cacheKey: string)
    ensures Agree(p, cacheKey, AfterAll(p, start, run), AfterAll(p, start, Own(run, cacheKey)))
  {
    if run != [] {
      var init, e := run[..|run| - 1], run[|run| - 1];
      AccountsAreIndependent(p, start, init, cacheKey);
      var t, alone := AfterAll(p, start, init), AfterAll(p, start, Own(init, cacheKey));
      if e.cacheKey != cacheKey {
        OthersUntouched(p, t, e, cacheKey);
      } else {
        var own := Own(run, cacheKey);
        assert own[..|own| - 1] == Own(init, cacheKey) && own[|own| - 1] == e;
        if e.Fail? {
          OwnStateDecides(p, cacheKey, t, alone, e.attempt);
        } else {
          SuccessAgrees(p, t, alone, cacheKey);
        }
      }
    }
  }

  /** So what any account is told next does not depend on what happened to the others. */
  lemma VerdictsAreIndependent(p: Protector, start: Table, run: seq<Login>, cacheKey: string, a: Attempt)
    ensures Attempted(p, cacheKey, AfterAll(p, start, run), a).1
            == Attempted(p, cacheKey, AfterAll(p, start, Own(run, cacheKey)), a).1
    ensures Recorded(p, cacheKey, AfterAll(p, start, run), a).1
            == Recorded(p, cacheKey, AfterAll(p, start, Own(run, cacheKey)), a).1
  {
    AccountsAreIndependent(p, start, run, cacheKey);
    OwnStateDecides(p, cacheKey, AfterAll(p, start, run), AfterAll(p, start, Own(run, cacheKey)), a);
  }

  // ---------- When an account is locked ----------

  /** The table after `k` failures at one instant, none of which locks, from an account without counter and lock. */
  function Fails(p: Protector, cacheKey: string, start: Table, at: nat, k: nat): Table {
    if k == 0 then start else Attempted(p, cacheKey, Fails(p, cacheKey, start, at, k - 1), Attempt(at, at, at, at)).0
  }

  /**
   From a clean start the failures up to the threshold are all recorded, the last of them sets the lock for the whole
   duration, and none before it does.
   */
  lemma {:induction false} LocksAtThreshold(p: Protector, cacheKey: string, start: Table, at: nat, k: nat)
    requires p.AttemptKey(cacheKey) !in start && p.LockKey(cacheKey) !in start && k <= p.Threshold()
    ensures var t := Fails(p, cacheKey, start, at, k);
            if k == p.Threshold() then
              Remaining(t, at, p.LockKey(cacheKey)) == p.LockSeconds() && p.AttemptKey(cacheKey) !in t
            else
              && p.LockKey(cacheKey) !in t
              && if k == 0 then p.AttemptKey(cacheKey) !in t
                 else p.AttemptKey(cacheKey) in t
                      && t[p.AttemptKey(cacheKey)] == Entry(Count(k), at + p.LockSeconds())
    decreases k
  {
    if k > 0 {
      LocksAtThreshold(p, cacheKey, start, at, k - 1);
      AttemptIsNotLock(p, cacheKey, cacheKey);
    }
  }

  /** A success wipes the slate: the next failure is the first again. */
  lemma SuccessClears(p: Protector, t: Table, cacheKey: string, a: Attempt)
    ensures var t' := After(p, t, Success(cacheKey));
            && Remaining(t', a.check, p.LockKey(cacheKey)) == 0
            && Recorded(p, cacheKey, t', a).1 == Some(1)
  {
  }
}
