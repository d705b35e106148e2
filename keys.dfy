/**
 * The 4x4 matrix keypad debouncer of keys.c.  Each KEYS_Update reads the
 * row of the selected column (-1 for none, the row number otherwise),
 * latches a newly seen key, reports the latched key once it has been held
 * through the debounce time, and selects the next column.  The row read
 * and the system tick are inputs; one tick `now` serves both reads of
 * TIMER_GetTime within a call.
 */
module Keys {
  import opened Stdint
  import opened Timers

  const KEY_NONE: uint8 := 0xFF
  const DEBOUNCE_TIME: uint32 := 200
  const KEY_COLUMNS: uint8 := 4

  /** `(currentColumn << 4) | row` on uint8_t. */
  function KeyCode(column: uint8, row: int8): (code: uint8)
    requires column < KEY_COLUMNS && 0 <= row < 4
    ensures code == 16 * column + row
    ensures code <= 0x33 && code != KEY_NONE
  {
    (((column as bv8) << 4) | (row as bv8)) as uint8
  }

  /** A key code names its column and row: the high nibble is the column and
      the low nibble the row, so distinct keys never share a code. */
  lemma KeyCodeDecode(column: uint8, row: int8)
    requires column < KEY_COLUMNS && 0 <= row < 4
    ensures KeyCode(column, row) / 16 == column as int && KeyCode(column, row) % 16 == row as int
    ensures forall c: uint8, r: int8 :: c < KEY_COLUMNS && 0 <= r < 4 && KeyCode(c, r) == KeyCode(column, row) ==>
      c == column && r == row
  {
  }

  /** A code the keypad can latch. */
  predicate IsKeyCode(code: uint8)
  {
    code / 16 < KEY_COLUMNS as int && code % 16 < 4
  }

  /** The static state of KEYS_Update and the global `currentColumn`. */
  datatype KeyState = KeyState(keyId: uint8, debounceTimer: uint32, currentColumn: uint8)

  /** What the state machine keeps true: a selectable column, and either no
      latched key or a genuine key code. */
  predicate Good(s: KeyState)
  {
    s.currentColumn < KEY_COLUMNS && (s.keyId == KEY_NONE || IsKeyCode(s.keyId))
  }

  datatype Scan = Scan(next: KeyState, key: uint8)

  /** One KEYS_Update: the new state and the returned key. */
  function Update(s: KeyState, row: int8, now: uint32): (r: Scan)
    requires Good(s) && -1 <= row < 4
    ensures Good(r.next)
    ensures r.next.currentColumn == (s.currentColumn + 1) % KEY_COLUMNS as int
  {
    var current := if row != -1 then KeyCode(s.currentColumn, row) else KEY_NONE;
    var latch := s.keyId != current && current != KEY_NONE;
    var keyId := if latch then current else s.keyId;
    var debounceTimer := if latch then now else s.debounceTimer;
    var valid := keyId != KEY_NONE && DelayTimer(DEBOUNCE_TIME, debounceTimer, now);
    var column := if s.currentColumn + 1 == KEY_COLUMNS as int then 0 else s.currentColumn + 1;
    Scan(KeyState(if valid then KEY_NONE else keyId, debounceTimer, column), if valid then keyId else KEY_NONE)
  }

  /** A pressed key different from the latched one replaces it and restarts
      the debounce time at `now`; it cannot be reported in the same call. */
  lemma NewKeyLatches(s: KeyState, row: int8, now: uint32)
    requires Good(s) && 0 <= row < 4 && s.keyId != KeyCode(s.currentColumn, row)
    ensures var r := Update(s, row, now);
      r.next.keyId == KeyCode(s.currentColumn, row) && r.next.debounceTimer == now && r.key == KEY_NONE
  {
  }

  /** The same key still pressed, or no key at all, leaves the latch and its
      start time alone (unless the latched key is reported now). */
  lemma NoChangeKeepsLatch(s: KeyState, row: int8, now: uint32)
    requires Good(s) && -1 <= row < 4
    requires row == -1 || s.keyId == KeyCode(s.currentColumn, row)
    ensures var r := Update(s, row, now);
      r.next.debounceTimer == s.debounceTimer &&
      (r.key == KEY_NONE ==> r.next.keyId == s.keyId)
  {
  }

  /** A key is reported only after it has been latched for strictly more
      than the debounce time, and reporting it clears the latch. */
  lemma ReportedAfterDebounce(s: KeyState, row: int8, now: uint32)
    requires Good(s) && -1 <= row < 4
    ensures var r := Update(s, row, now);
      r.key != KEY_NONE ==>
        r.key == s.keyId && IsKeyCode(r.key) && r.next.keyId == KEY_NONE &&
        Elapsed(s.debounceTimer, now) > DEBOUNCE_TIME
  {
  }

  /** A latched key that is still held is reported exactly when its debounce
      time has passed. */
  lemma HeldKeyReported(s: KeyState, row: int8, now: uint32)
    requires Good(s) && 0 <= row < 4 && s.keyId == KeyCode(s.currentColumn, row)
    ensures var r := Update(s, row, now);
      r.key == (if DelayTimer(DEBOUNCE_TIME, s.debounceTimer, now) then s.keyId else KEY_NONE)
  {
  }

  /** Releasing the key does not cancel the latch: with no row pressed the
      latched key is reported exactly when its debounce time has passed. */
  lemma ReleaseKeepsKey(s: KeyState, now: uint32)
    requires Good(s)
    ensures var r := Update(s, -1, now);
      r.key == (if s.keyId != KEY_NONE && DelayTimer(DEBOUNCE_TIME, s.debounceTimer, now) then s.keyId else KEY_NONE)
  {
  }

  /** Each latch is reported at most once: after a report the latch is
      empty, so the next call reports nothing, whatever row it reads. */
  lemma {:induction false} ReportedOnce(s: KeyState, row: int8, now: uint32, row': int8, now': uint32)
    requires Good(s) && -1 <= row < 4 && -1 <= row' < 4 && Update(s, row, now).key != KEY_NONE
    ensures Update(Update(s, row, now).next, row', now').key == KEY_NONE
  {
    ReportedAfterDebounce(s, row, now);
  }

  /** Four scans visit the four columns and return to the starting one. */
  lemma {:induction false} ColumnsCycle(s: KeyState, rows: seq<int8>, nows: seq<uint32>)
    requires Good(s) && |rows| == 4 && |nows| == 4
    requires forall i :: 0 <= i < 4 ==> -1 <= rows[i] < 4
    ensures var s1 := Update(s, rows[0], nows[0]).next;
      var s2 := Update(s1, rows[1], nows[1]).next;
      var s3 := Update(s2, rows[2], nows[2]).next;
      Update(s3, rows[3], nows[3]).next.currentColumn == s.currentColumn &&
      {s.currentColumn, s1.currentColumn, s2.currentColumn, s3.currentColumn} == {0, 1, 2, 3}
  {
    var s1 := Update(s, rows[0], nows[0]).next;
    var s2 := Update(s1, rows[1], nows[1]).next;
    var s3 := Update(s2, rows[2], nows[2]).next;
    assert s1.currentColumn == (s.currentColumn + 1) % 4;
    assert s2.currentColumn == (s.currentColumn + 2) % 4;
    assert s3.currentColumn == (s.currentColumn + 3) % 4;
  }

  class Keypad {
    var keyId: uint8
    var debounceTimer: uint32
    var currentColumn: uint8

    function State(): (st: KeyState)
      reads this
    {
      KeyState(keyId, debounceTimer, currentColumn)
    }

    /** The zero-initialised statics: `keyId = KEY_NONE`, `debounceTimer = 0`. */
    constructor ()
      ensures State() == KeyState(KEY_NONE, 0, 0) && Good(State())
    {
      keyId := KEY_NONE;
      debounceTimer := 0;
      currentColumn := 0;
    }

    /** KEYS_Init: select the first column. */
    method Init()
      modifies this
      ensures State() == old(State()).(currentColumn := 0)
      ensures old(Good(State())) ==> Good(State())
    {
      currentColumn := 0;
    }

    /** KEYS_Update with row `row` read from the selected column at tick `now`. */
    method KeysUpdate(row: int8, now: uint32) returns (keyValid: uint8)
      requires Good(State()) && -1 <= row < 4
      modifies this
      ensures Scan(State(), keyValid) == Update(old(State()), row, now)
      ensures Good(State())
    {
      keyValid := KEY_NONE;
      var currentKey := KEY_NONE;
      if row != -1 {
        currentKey := KeyCode(currentColumn, row);
      }
      if keyId != currentKey && currentKey != KEY_NONE {
        keyId := currentKey;
        debounceTimer := now;
      }
      if keyId != KEY_NONE && DelayTimer(DEBOUNCE_TIME, debounceTimer, now) {
        keyValid := keyId;
        keyId := KEY_NONE;
      }
      currentColumn := currentColumn + 1;
      if currentColumn == KEY_COLUMNS {
        currentColumn := 0;
      }
    }
  }
}
