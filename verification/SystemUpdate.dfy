/** The A/B system update (kpm/system_update.c): the state file, staging, confirmation and rollback. */
module SystemUpdates {
  import opened Hardware

  const UPDATE_OK := 0
  const UPDATE_FORMAT := -1
  const UPDATE_STORAGE := -5
  const MAX_STATE := 127
  const MAX_BUNDLE := 64 * 1024 * 1024

  // ---------------------------------------------------------------- the state file

  predicate IsSlot(c: char) { c == 'A' || c == 'B' }
  function Other(c: char): char { if c == 'A' then 'B' else 'A' }

  /** The text up to the release: "active=", "pending=", "attempts=" and "release=" with their values. */
  function Head(active: char, pending: char, attempts: char): (t: string)
    ensures |t| == 38
  {
    "active=" + [active] + "\n" + "pending=" + [pending] + "\n" + "attempts=" + [attempts] + "\n" + "release="
  }

  function Digit(attempts: int): char {
    if attempts < 0 then '0' else if attempts > 9 then '9' else '0' + attempts as char
  }

  function StateText(active: char, pending: char, release: string, attempts: int): string {
    Head(active, pending, Digit(attempts)) + release + "\n"
  }

  /** The part of the file the readers look at. */
  function Seen(file: string): (t: string)
    ensures |t| <= |file|
  {
    if |file| > MAX_STATE then file[..MAX_STATE] else file
  }

  /** The first position where the scan of active_slot stops; the length if there is none. */
  function ActiveAt(t: string, i: nat): (k: nat)
    requires i <= |t|
    ensures i <= k <= |t| && (k + 7 < |t| ==> t[k] == 'a' && t[k + 6] == '=')
    decreases |t| - i
  {
    if i + 7 >= |t| then |t| else if t[i] == 'a' && t[i + 6] == '=' then i else ActiveAt(t, i + 1)
  }

  function ReadActive(t: string): (c: char)
    ensures IsSlot(c)
  {
    var k := ActiveAt(t, 0);
    if k + 7 < |t| && t[k + 7] == 'B' then 'B' else 'A'
  }

  /** Where the scan for the pending slot finds a value. */
  predicate Mark(t: string, i: int) { 0 <= i && i + 8 < |t| && t[i] == 'p' && t[i + 7] == '=' }

  /** The value of the last mark below `n`; the zero character if there is none. */
  function LastMark(t: string, n: nat): char {
    if n == 0 then '\0' else if Mark(t, n - 1) then t[n + 7] else LastMark(t, n - 1)
  }

  function ReadPending(t: string): char { LastMark(t, |t|) }

  /** A release text looks like a pending entry at position `i`. */
  predicate Forged(release: string, i: int) {
    0 <= i && i + 7 < |release| && release[i] == 'p' && release[i + 7] == '='
  }

  /** What is read back as pending: the value written, unless the release text forges one; then the last forged
      value. */
  function LastForged(release: string, n: nat, pending: char): char {
    if n == 0 then pending
    else if Forged(release, n - 1) then (release + "\n")[n + 7]
    else LastForged(release, n - 1, pending)
  }

  /** The active slot reads back. */
  lemma ActiveReadsBack(active: char, pending: char, release: string, attempts: int)
    requires IsSlot(active)
    ensures ReadActive(StateText(active, pending, release, attempts)) == active
  {
    var t := StateText(active, pending, release, attempts);
    assert t[0] == 'a' && t[6] == '=' && t[7] == active;
    assert ActiveAt(t, 0) == 0;
  }

  /** In the fixed part of the text only the pending entry is a mark. */
  lemma HeadMarks(active: char, pending: char, release: string, attempts: int, i: int)
    requires IsSlot(active) && (IsSlot(pending) || pending == '-') && 0 <= i < 38
    ensures Mark(StateText(active, pending, release, attempts), i) <==> i == 9
    ensures StateText(active, pending, release, attempts)[17] == pending
  {
    var h := Head(active, pending, Digit(attempts));
    var t := StateText(active, pending, release, attempts);
    assert forall k :: 0 <= k < 38 ==> t[k] == h[k];
    assert h[9] == 'p' && h[16] == '=' && h[17] == pending;
    assert forall k :: 0 <= k < 38 && h[k] == 'p' ==> k == 9 || k == 24;
  }

  /** In the release text a mark is a forged entry. */
  lemma TailMarks(active: char, pending: char, release: string, attempts: int, i: int)
    requires 38 <= i
    ensures Mark(StateText(active, pending, release, attempts), i) <==> Forged(release, i - 38)
    ensures Forged(release, i - 38) ==> StateText(active, pending, release, attempts)[i + 8] == (release + "\n")[i - 30]
  {
    var t := StateText(active, pending, release, attempts);
    assert forall k :: 0 <= k <= |release| ==> t[38 + k] == (release + "\n")[k];
    if i + 8 < |t| { assert t[i] == (release + "\n")[i - 38] && t[i + 7] == (release + "\n")[i - 31]; }
  }

  lemma {:induction false} HeadValue(active: char, pending: char, release: string, attempts: int, n: nat)
    requires IsSlot(active) && (IsSlot(pending) || pending == '-') && 10 <= n <= 38
    ensures LastMark(StateText(active, pending, release, attempts), n) == pending
  {
    HeadMarks(active, pending, release, attempts, n - 1);
    if n > 10 { HeadValue(active, pending, release, attempts, n - 1); }
  }

  lemma {:induction false} TailValue(active: char, pending: char, release: string, attempts: int, n: nat)
    requires IsSlot(active) && (IsSlot(pending) || pending == '-')
    ensures LastMark(StateText(active, pending, release, attempts), 38 + n) == LastForged(release, n, pending)
  {
    if n == 0 {
      HeadValue(active, pending, release, attempts, 38);
    } else {
      TailMarks(active, pending, release, attempts, 38 + n - 1);
      TailValue(active, pending, release, attempts, n - 1);
    }
  }

  /** The pending slot reads back as written, or as the last value the release text forges. */
  lemma PendingReadsBack(active: char, pending: char, release: string, attempts: int)
    requires IsSlot(active) && (IsSlot(pending) || pending == '-')
    ensures ReadPending(StateText(active, pending, release, attempts)) == LastForged(release, |release|, pending)
  {
    TailValue(active, pending, release, attempts, |release| + 1);
  }

  predicate Honest(release: string) { forall i :: 0 <= i < |release| ==> !Forged(release, i) }

  lemma {:induction false} ForgedValue(release: string, n: nat, p: char, q: char)
    requires n <= |release|
    ensures (forall i :: 0 <= i < n ==> !Forged(release, i)) ==> LastForged(release, n, p) == p
    ensures (exists i :: 0 <= i < n && Forged(release, i)) ==> LastForged(release, n, p) == LastForged(release, n, q)
  {
    if n > 0 { ForgedValue(release, n - 1, p, q); }
  }

  /** Every pending slot reads back exactly if the release text forges nothing; a text without '=' never does. */
  lemma PendingExactly(active: char, release: string, attempts: int)
    requires IsSlot(active)
    ensures (forall p :: IsSlot(p) || p == '-' ==> ReadPending(StateText(active, p, release, attempts)) == p) <==>
            Honest(release)
    ensures (forall i :: 0 <= i < |release| ==> release[i] != '=') ==> Honest(release)
  {
    forall p | IsSlot(p) || p == '-'
      ensures var c := ReadPending(StateText(active, p, release, attempts));
              c == LastForged(release, |release|, p) && (Honest(release) ==> c == p)
    {
      PendingReadsBack(active, p, release, attempts);
      ForgedValue(release, |release|, p, p);
    }
    ForgedValue(release, |release|, 'A', 'B');
    if !Honest(release) {
      assert LastForged(release, |release|, 'A') == LastForged(release, |release|, 'B');
      assert ReadPending(StateText(active, 'A', release, attempts))
          == ReadPending(StateText(active, 'B', release, attempts));
    }
  }

  /** A release text that turns a pending slot B into A. */
  lemma ForgeryExample()
    ensures ReadPending(StateText('A', 'B', "pxxxxxx=A", 3)) == 'A'
  {
    var release := "pxxxxxx=A";
    assert Forged(release, 0);
    PendingReadsBack('A', 'B', release, 3);
    assert LastForged(release, 1, 'B') == 'A';
    forall i | 1 <= i < 9 ensures !Forged(release, i) {}
    NothingLater(release, 1, 9, 'B');
  }

  lemma {:induction false} NothingLater(release: string, k: nat, n: nat, p: char)
    requires k <= n && forall i :: k <= i < n ==> !Forged(release, i)
    ensures LastForged(release, n, p) == LastForged(release, k, p)
  {
    if k < n { NothingLater(release, k, n - 1, p); }
  }

  // ---------------------------------------------------------------- updates

  type Bundle = seq<Byte>

  /** The release text of a bundle: bytes 8 to 39 of its header, up to a zero byte and at most 31 of them. */
  function ReleaseOf(bundle: Bundle, n: nat): (r: string)
    requires |bundle| >= 40 && n <= 31
    ensures |r| <= n
  {
    if n == 0 then ""
    else
      var r := ReleaseOf(bundle, n - 1);
      if |r| < n - 1 || bundle[8 + n - 1] == 0 then r else r + [bundle[8 + n - 1] as char]
  }

  /** Storage answers of one call: which of its writes succeed, and whether scratch memory is there. */
  datatype Answers = Answers(mkdir: bool, txn: bool, temp: bool, memory: bool, destination: bool, state: bool)

  predicate AllGranted(a: Answers) { a.mkdir && a.txn && a.temp && a.memory && a.destination && a.state }

  class Updater {
    /** verify_bundle: 0 when a bundle is accepted. */
    const verify: Bundle -> int
    var state: string
    var txn: bool
    var temp: map<char, Bundle>
    var system: map<char, Bundle>
    ghost var confirmed: bool

    /** The slot holds a bundle that verify_bundle accepts. */
    ghost predicate Holds(slot: char)
      reads this
    {
      slot in system && verify(system[slot]) == 0
    }

    function Active(): char
      reads this
    {
      ReadActive(Seen(state))
    }

    function Pending(): char
      reads this
    {
      ReadPending(Seen(state))
    }

    /** A pending slot that is not the active one holds an accepted bundle, and once a confirmation has changed the
        active slot so does that one. */
    ghost predicate Valid()
      reads this
    {
      && (forall b: Bundle :: verify(b) == 0 ==> |b| >= 192)
      && (IsSlot(Pending()) ==> Holds(Pending()) || Pending() == Active())
      && (confirmed ==> Holds(Active()))
    }

    constructor (verify: Bundle -> int)
      requires forall b: Bundle :: verify(b) == 0 ==> |b| >= 192
      ensures Valid() && this.verify == verify && Active() == 'A' && !confirmed
    {
      this.verify, state, txn, temp, system, confirmed := verify, "", false, map[], map[], false;
    }

    // The scan of active_slot.
    method ActiveSlot() returns (c: char)
      ensures c == Active()
    {
      var t := Seen(state);
      var i := 0;
      while i + 7 < |t|
        invariant 0 <= i <= |t| && ActiveAt(t, 0) == ActiveAt(t, i)
        decreases |t| - i
      {
        if t[i] == 'a' && t[i + 6] == '=' { return if t[i + 7] == 'B' then 'B' else 'A'; }
        i := i + 1;
      }
      return 'A';
    }

    // The scan of kpm_system_update_confirm.
    method PendingSlot() returns (c: char)
      ensures c == Pending()
    {
      var t := Seen(state);
      c := '\0';
      for i := 0 to |t|
        invariant c == LastMark(t, i)
      {
        if i + 8 < |t| && t[i] == 'p' && t[i + 7] == '=' { c := t[i + 8]; }
      }
    }

    // write_state; `ok` is the storage answer.
    method WriteState(active: char, pending: char, release: string, attempts: int, ok: bool) returns (done: bool)
      requires IsSlot(active) && (IsSlot(pending) || pending == '-') && |release| <= 31
      modifies `state
      ensures done == ok
      ensures state == if ok then StateText(active, pending, release, attempts) else old(state)
      ensures ok ==> Active() == active && Pending() == LastForged(release, |release|, pending)
      ensures ok && Honest(release) ==> Pending() == pending
    {
      ActiveReadsBack(active, pending, release, attempts);
      PendingReadsBack(active, pending, release, attempts);
      ForgedValue(release, |release|, pending, pending);
      if ok { state := StateText(active, pending, release, attempts); }
      return ok;
    }

    // Write the bundle to the temporary file of a slot, check what was written and move it into place.
    method Install(bundle: Bundle, pending: char, answers: Answers) returns (stored: bool)
      requires Valid() && pending == Other(Active()) && verify(bundle) == 0
      modifies `txn, `temp, `system
      ensures stored <==> answers.temp && answers.memory && answers.destination
      ensures Valid() && system == if stored then old(system)[pending := bundle] else old(system)
      ensures forall c :: c in old(temp) && c != pending ==> c in temp && temp[c] == old(temp)[c]
    {
      txn := true;
      if !answers.temp { return false; }
      temp := temp[pending := bundle];
      var read := temp[pending];
      if !answers.memory || |read| != |bundle| || verify(read) != UPDATE_OK || !answers.destination {
        temp, txn := temp - {pending}, false;
        return false;
      }
      system := system[pending := read];
      return true;
    }

    /** Stage a bundle (kpm_system_update_stage). The active slot is never written; a bundle that is not accepted
        changes nothing; success means the other slot holds the bundle, and is pending unless the release text forges an
        entry. */
    method Stage(bundle: Bundle, answers: Answers) returns (code: int)
      requires Valid()
      modifies this
      ensures Valid() && Active() == old(Active()) && confirmed == old(confirmed)
      ensures code == UPDATE_OK <==> verify(bundle) == UPDATE_OK && |bundle| <= MAX_BUNDLE && AllGranted(answers)
      ensures Active() in old(system) ==> Active() in system && system[Active()] == old(system)[Active()]
      ensures Active() in old(temp) ==> Active() in temp && temp[Active()] == old(temp)[Active()]
      ensures verify(bundle) != 0 ==>
                code == verify(bundle) && state == old(state) && system == old(system) && temp == old(temp)
      ensures code == UPDATE_OK ==> verify(bundle) == 0 && system == old(system)[Other(Active()) := bundle]
      ensures code == UPDATE_OK ==>
                Pending() == LastForged(ReleaseOf(bundle, 31), |ReleaseOf(bundle, 31)|, Other(Active()))
      ensures code == UPDATE_OK && Honest(ReleaseOf(bundle, 31)) ==> Pending() == Other(Active())
      ensures verify(bundle) == 0 && code != UPDATE_OK ==> code == UPDATE_STORAGE && state == old(state)
    {
      code := verify(bundle);
      if code != UPDATE_OK { return; }
      if |bundle| > MAX_BUNDLE { return UPDATE_STORAGE; }
      var active := ActiveSlot();
      var pending := Other(active);
      if !answers.mkdir { return UPDATE_STORAGE; }
      if !answers.txn { return UPDATE_STORAGE; }
      var stored := Install(bundle, pending, answers);
      if !stored { return UPDATE_STORAGE; }
      var done := WriteState(active, pending, ReleaseOf(bundle, 31), 3, answers.state);
      code := if done then UPDATE_OK else UPDATE_STORAGE;
      if done { temp, txn := temp - {pending}, false; }
    }

    /** Confirm the pending slot (kpm_system_update_confirm): it becomes active; if that changes the active slot, the
        new one holds an accepted bundle. */
    method Confirm(storage: bool) returns (code: int)
      requires Valid()
      modifies `state, `confirmed
      ensures Valid()
      ensures code == UPDATE_OK ==> IsSlot(old(Pending())) && Active() == old(Pending()) && Pending() == '-'
      ensures code == UPDATE_OK && Active() != old(Active()) ==> Holds(Active()) && confirmed
      ensures old(confirmed) ==> confirmed
      ensures code != UPDATE_OK ==>
                state == old(state) && confirmed == old(confirmed) && (!IsSlot(Pending()) || !storage)
    {
      if |Seen(state)| == 0 {
        assert ReadPending(Seen(state)) == '\0';
        return UPDATE_STORAGE;
      }
      var pending := PendingSlot();
      if pending != 'A' && pending != 'B' { return UPDATE_FORMAT; }
      PendingExactly(pending, "confirmed", 0);
      ghost var was := Active();
      var done := WriteState(pending, '-', "confirmed", 0, storage);
      if !done { return UPDATE_STORAGE; }
      confirmed := confirmed || pending != was;
      return UPDATE_OK;
    }

    /** Give the pending slot up (kpm_system_update_rollback): the active slot stays. */
    method Rollback(storage: bool) returns (code: int)
      requires Valid()
      modifies `state
      ensures Valid() && Active() == old(Active())
      ensures code == UPDATE_OK ==> Pending() == '-'
      ensures code != UPDATE_OK ==> state == old(state) && !storage
    {
      var active := ActiveSlot();
      PendingExactly(active, "rollback", 0);
      var done := WriteState(active, '-', "rollback", 0, storage);
      return if done then UPDATE_OK else UPDATE_STORAGE;
    }
  }

  datatype Action = Stage(bundle: Bundle, answers: Answers) | Confirm(storage: bool) | Rollback(storage: bool)

  /** Over any run of stagings, confirmations and rollbacks, with any release texts: if the active slot is not the one
      at the start, it holds a bundle that was accepted. */
  method Run(u: Updater, actions: seq<Action>)
    requires u.Valid()
    modifies u
    ensures u.Valid() && (u.Active() != old(u.Active()) ==> u.Holds(u.Active()))
  {
    for i := 0 to |actions|
      invariant u.Valid() && (u.Active() != old(u.Active()) ==> u.confirmed)
    {
      match actions[i]
      case Stage(bundle, answers) => var _ := u.Stage(bundle, answers);
      case Confirm(storage) => var _ := u.Confirm(storage);
      case Rollback(storage) => var _ := u.Rollback(storage);
    }
  }
}
