/**
 The v2 ciphertext format (server/crypto.ts) and the migration of stored values to it
 (scripts/rekey-v2.ts). The block cipher and the key derivation are parameters of
 which only the round trip is assumed; hex coding and the byte layout are concrete.
 */
module Rekey {

  import opened Wrappers

  type byte = x: int | 0 <= x < 256
  type Bytes = seq<byte>

  // ----- Hex coding (section 8 of RFC 4648, lower case; decoding as Node's Buffer does) -----

  const Digits: string := "0123456789abcdef"

  function HexValue(c: char): Option<int> {
    if '0' <= c <= '9' then Some(c as int - '0' as int)
    else if 'a' <= c <= 'f' then Some(c as int - 'a' as int + 10)
    else if 'A' <= c <= 'F' then Some(c as int - 'A' as int + 10)
    else None
  }

  function HexDigit(n: int): (c: char)
    requires 0 <= n < 16
    ensures HexValue(c) == Some(n)
  {
    if n < 10 then (n + '0' as int) as char else (n - 10 + 'a' as int) as char
  }

  function ToHex(b: Bytes): string {
    if b == [] then "" else [HexDigit(b[0] / 16), HexDigit(b[0] % 16)] + ToHex(b[1..])
  }

  /** Reads pairs of hex digits up to the first pair that is not one. */
  function FromHex(s: string): Bytes {
    if |s| < 2 || HexValue(s[0]).None? || HexValue(s[1]).None? then []
    else [HexValue(s[0]).value * 16 + HexValue(s[1]).value] + FromHex(s[2..])
  }

  lemma {:induction false} HexRoundTrip(b: Bytes)
    ensures FromHex(ToHex(b)) == b
  {
    if b != [] {
      HexRoundTrip(b[1..]);
      assert ToHex(b)[2..] == ToHex(b[1..]);
      assert b == [b[0]] + b[1..];
    }
  }

  /** Hex text carries two digits a byte, all of them legal. */
  lemma {:induction false} HexText(b: Bytes)
    ensures |ToHex(b)| == 2 * |b|
    ensures forall c :: c in ToHex(b) ==> HexValue(c).Some?
  {
    if b != [] { HexText(b[1..]); }
  }

  // ----- The wire format -----

  /** Authenticated encryption: sealing gives tag and payload; opening fails with `None`. */
  datatype Cipher = Cipher(derive: (string, string) -> string, seal: (string, Bytes, string) -> (Bytes, Bytes),
                           open: (string, Bytes, Bytes, Bytes) -> Option<string>)
  {
    ghost predicate Sound() {
      forall key, iv, text :: |seal(key, iv, text).0| == 16 &&
          open(key, iv, seal(key, iv, text).0, seal(key, iv, text).1) == Some(text)
    }
  }

  const Prefix := "v2:"
  const LegacySalt := "multiqlti-provider-keys-v1"
  const DevFallbackKey := "dev-default-insecure-key-change-me!"
  const SaltLen := 32
  const HeaderLen := 60

  predicate IsV2(value: string) { Prefix <= value }

  function EncryptV2(c: Cipher, text: string, secret: string, salt: Bytes, iv: Bytes): string {
    var key := c.derive(secret, ToHex(salt));
    var (tag, payload) := c.seal(key, iv, text);
    Prefix + ToHex(salt + iv + tag + payload)
  }

  function DecryptV2(c: Cipher, value: string, secret: string): Option<string>
    requires IsV2(value)
  {
    var buf := FromHex(value[|Prefix|..]);
    if |buf| < HeaderLen then None
    else
      var key := c.derive(secret, ToHex(buf[..SaltLen]));
      c.open(key, buf[SaltLen..SaltLen + 12], buf[SaltLen + 12..HeaderLen], buf[HeaderLen..])
  }

  /** crypto.decrypt: refuses anything without the prefix. */
  function Decrypt(c: Cipher, value: string, secret: string): Option<string> {
    if IsV2(value) then DecryptV2(c, value, secret) else None
  }

  function TryDecryptLegacy(c: Cipher, value: string, secret: string): Option<string> {
    var buf := FromHex(value);
    if |buf| < 28 then None else c.open(c.derive(secret, LegacySalt), buf[..12], buf[12..28], buf[28..])
  }

  /** The migration script's reader: either format, and for the old one either key. */
  function DecryptAny(c: Cipher, value: string, key: string): Option<string> {
    if IsV2(value) then DecryptV2(c, value, key)
    else
      var first := TryDecryptLegacy(c, value, key);
      if first.Some? then first else TryDecryptLegacy(c, value, DevFallbackKey)
  }

  /** ROUND TRIP. Decrypting undoes encrypting, whatever salt and nonce were drawn. */
  lemma {:induction false} V2RoundTrip(c: Cipher, text: string, secret: string, salt: Bytes, iv: Bytes)
    requires c.Sound() && |salt| == SaltLen && |iv| == 12
    ensures Decrypt(c, EncryptV2(c, text, secret, salt, iv), secret) == Some(text)
    ensures EncryptV2(c, text, secret, salt, iv) != ""
  {
    var key := c.derive(secret, ToHex(salt));
    var (tag, payload) := c.seal(key, iv, text);
    var buf := salt + iv + tag + payload;
    var value := EncryptV2(c, text, secret, salt, iv);
    assert value[|Prefix|..] == ToHex(buf);
    HexRoundTrip(buf);
    assert buf[..SaltLen] == salt && buf[SaltLen..SaltLen + 12] == iv;
    assert buf[SaltLen + 12..HeaderLen] == tag && buf[HeaderLen..] == payload;
  }

  /** What the old format stored: nonce, tag and payload under the fixed salt. */
  function EncryptLegacy(c: Cipher, text: string, secret: string, iv: Bytes): string {
    var (tag, payload) := c.seal(c.derive(secret, LegacySalt), iv, text);
    ToHex(iv + tag + payload)
  }

  /** The reader recovers old values written under the current key, and those written
      under the development key unless the current key also opens them. */
  lemma {:induction false} LegacyReadable(c: Cipher, text: string, key: string, iv: Bytes)
    requires c.Sound() && |iv| == 12
    ensures DecryptAny(c, EncryptLegacy(c, text, key, iv), key) == Some(text)
    ensures var legacy := EncryptLegacy(c, text, DevFallbackKey, iv);
            TryDecryptLegacy(c, legacy, key).None? ==> DecryptAny(c, legacy, key) == Some(text)
  {
    LegacyRoundTrip(c, text, key, iv);
    LegacyRoundTrip(c, text, DevFallbackKey, iv);
  }

  lemma {:induction false} LegacyRoundTrip(c: Cipher, text: string, secret: string, iv: Bytes)
    requires c.Sound() && |iv| == 12
    ensures !IsV2(EncryptLegacy(c, text, secret, iv))
    ensures TryDecryptLegacy(c, EncryptLegacy(c, text, secret, iv), secret) == Some(text)
  {
    var (tag, payload) := c.seal(c.derive(secret, LegacySalt), iv, text);
    var buf := iv + tag + payload;
    HexRoundTrip(buf);
    HexText(buf);
    var value := EncryptLegacy(c, text, secret, iv);
    assert HexValue(value[0]).Some? && HexValue('v').None?;
    assert Prefix[0] == 'v';
    assert buf[..12] == iv && buf[12..28] == tag && buf[28..] == payload;
  }

  // ----- The bytes of the formats -----

  /** Each byte is two digits, the high one first; decoding takes either case. */
  lemma {:induction false} HexSamples()
    ensures ToHex([31, 160]) == "1fa0" && FromHex("1fa0") == [31, 160] && FromHex("1FA0") == [31, 160]
    ensures FromHex("1fzz") == [31] && FromHex("1") == []
  {
    assert ToHex([]) == "" && FromHex("") == [];
    assert [31, 160][1..] == [160] && [160][1..] == [];
    assert "1fa0"[2..] == "a0" && "a0"[2..] == "" && "1FA0"[2..] == "A0" && "A0"[2..] == "" && "1fzz"[2..] == "zz";
    assert ToHex([160]) == "a0";
    assert FromHex("a0") == [160] && FromHex("A0") == [160] && FromHex("zz") == [];
  }

  /** The v2 text: the marker, then the hex of salt (32 bytes), nonce (12), tag (16) and
      payload, encrypted under the key derived from the secret and the hex of the salt. */
  lemma {:induction false} V2Layout(c: Cipher, text: string, secret: string, salt: Bytes, iv: Bytes)
    requires c.Sound() && |salt| == 32 && |iv| == 12
    ensures var value := EncryptV2(c, text, secret, salt, iv);
            && |value| >= 3 && value[..3] == "v2:"
            && var bytes := FromHex(value[3..]);
            && |bytes| >= 60 && bytes[..32] == salt && bytes[32..44] == iv
            && (bytes[44..60], bytes[60..]) == c.seal(c.derive(secret, ToHex(salt)), iv, text)
  {
    var (tag, payload) := c.seal(c.derive(secret, ToHex(salt)), iv, text);
    var value := EncryptV2(c, text, secret, salt, iv);
    var all := salt + iv + tag + payload;
    assert value[3..] == ToHex(all) && value[..3] == Prefix;
    HexRoundTrip(all);
    assert all[..32] == salt && all[32..44] == iv && all[44..60] == tag && all[60..] == payload;
  }

  /** crypto.decrypt reads nothing without the marker, and nothing shorter than a header. */
  lemma {:induction false} DecryptRefuses(c: Cipher, value: string, secret: string)
    ensures !("v2:" <= value) ==> Decrypt(c, value, secret) == None
    ensures "v2:" <= value && |FromHex(value[3..])| < 60 ==> Decrypt(c, value, secret) == None
    ensures "v2:" <= value && |FromHex(value[3..])| >= 60 ==>
              var bytes := FromHex(value[3..]);
              Decrypt(c, value, secret) ==
                c.open(c.derive(secret, ToHex(bytes[..32])), bytes[32..44], bytes[44..60], bytes[60..])
  {
  }

  /** The old format: nonce (12 bytes), tag (16) and payload under a fixed salt; the reader
      tries the current key and then the development key. */
  lemma {:induction false} LegacyReads(c: Cipher, value: string, key: string)
    requires !("v2:" <= value)
    ensures var bytes := FromHex(value);
            if |bytes| < 28 then DecryptAny(c, value, key) == None
            else
              var first := c.open(c.derive(key, "multiqlti-provider-keys-v1"), bytes[..12], bytes[12..28], bytes[28..]);
              var devKey := c.derive("dev-default-insecure-key-change-me!", "multiqlti-provider-keys-v1");
              var second := c.open(devKey, bytes[..12], bytes[12..28], bytes[28..]);
              DecryptAny(c, value, key) == if first == None then second else first
  {
  }

  /** A v2 value is read with the current key alone. */
  lemma {:induction false} V2Reads(c: Cipher, value: string, key: string)
    requires "v2:" <= value
    ensures DecryptAny(c, value, key) == Decrypt(c, value, key)
  {
  }

  // ----- One pass over a column -----

  datatype Mode = Live | DryRun | Verify

  /** What the pass draws and meets for a row: fresh salt and nonce, and whether its
      UPDATE goes through. */
  datatype Draw = Draw(salt: Bytes, iv: Bytes, updates: bool)

  datatype Job = Job(c: Cipher, key: string, mode: Mode, draws: string -> Draw) {
    ghost predicate Valid() {
      c.Sound() && forall id :: |draws(id).salt| == SaltLen && |draws(id).iv| == 12
    }
  }

  datatype Stats = Stats(total: int, alreadyV2: int, rekeyed: int, errors: int, nonV2Remaining: int)

  /** The fate of a row: skipped as empty or already v2, only counted, or tried. */
  datatype Fate = Empty | Already | Counted | Failed | Rekeyed(newValue: string)

  function FateOf(job: Job, id: string, value: string): Fate
  {
    if value == "" then Empty
    else if IsV2(value) then Already
    else if job.mode.Verify? then Counted
    else
      var text := DecryptAny(job.c, value, job.key);
      if text.None? then Failed
      else if job.mode.DryRun? then Counted
      else if job.draws(id).updates
      then Rekeyed(EncryptV2(job.c, text.value, job.key, job.draws(id).salt, job.draws(id).iv))
      else Failed
  }

  function ValueAfter(job: Job, id: string, value: string): string
  {
    var f := FateOf(job, id, value);
    if f.Rekeyed? then f.newValue else value
  }

  function ColumnAfter(job: Job, values: map<string, string>): map<string, string> {
    map id | id in values :: ValueAfter(job, id, values[id])
  }

  // The application may write to the column during the pass: `writes[i]` is what lands
  // after the SELECT, or after the row before, and before row `i` is treated. The pass
  // works on the rows the SELECT returned.

  /** The column once the listed rows have been treated. */
  function RowsAfter(job: Job, rows: map<string, string>, writes: seq<map<string, string>>, ids: seq<string>)
    : (r: map<string, string>)
    requires |writes| == |ids| && forall id :: id in ids ==> id in rows
    ensures rows.Keys <= r.Keys
  {
    if ids == [] then rows
    else
      var n := |ids| - 1;
      var now, f := RowsAfter(job, rows, writes[..n], ids[..n]) + writes[n], FateOf(job, ids[n], rows[ids[n]]);
      if f.Rekeyed? then now[ids[n] := f.newValue] else now
  }

  /** What the application wrote last to a row in the given stretch. */
  function LastWrite(writes: seq<map<string, string>>, id: string, lo: nat, hi: nat): Option<string>
    requires hi <= |writes|
  {
    if hi <= lo then None
    else if id in writes[hi - 1] then Some(writes[hi - 1][id])
    else LastWrite(writes, id, lo, hi - 1)
  }

  lemma {:induction false} LastWritePrefix(writes: seq<map<string, string>>, id: string, lo: nat, hi: nat, n: nat)
    requires hi <= n <= |writes|
    ensures LastWrite(writes[..n], id, lo, hi) == LastWrite(writes, id, lo, hi)
    decreases hi
  {
    if hi > lo { LastWritePrefix(writes, id, lo, hi - 1, n); }
  }

  /** A row the pass did not list holds what the application wrote last. */
  lemma {:induction false} UnlistedRow(job: Job, rows: map<string, string>, writes: seq<map<string, string>>,
                                       ids: seq<string>, id: string)
    requires |writes| == |ids| && (forall k :: k in ids ==> k in rows) && id !in ids && id in rows
    ensures RowsAfter(job, rows, writes, ids)[id] == OrElse(LastWrite(writes, id, 0, |ids|), rows[id])
  {
    if ids != [] {
      var n := |ids| - 1;
      UnlistedRow(job, rows, writes[..n], ids[..n], id);
      LastWritePrefix(writes, id, 0, n, n);
    }
  }

  /** What row `i` holds in the end: what the application wrote after the row was treated;
      else the new ciphertext if it was rekeyed; else what the application wrote before. */
  function Outcome(job: Job, rows: map<string, string>, writes: seq<map<string, string>>, ids: seq<string>,
                   i: nat): string
    requires |writes| == |ids| && i < |ids| && ids[i] in rows
  {
    var id := ids[i];
    var late := LastWrite(writes, id, i + 1, |ids|);
    if late.Some? then late.value
    else if FateOf(job, id, rows[id]).Rekeyed? then FateOf(job, id, rows[id]).newValue
    else OrElse(LastWrite(writes, id, 0, i + 1), rows[id])
  }

  /** The listed ids are different rows. */
  ghost predicate Rows(ids: seq<string>, rows: map<string, string>) {
    (forall i, j :: 0 <= i < j < |ids| ==> ids[i] != ids[j]) && forall id :: id in ids ==> id in rows
  }

  lemma {:induction false} LastRowOutcome(job: Job, rows: map<string, string>, writes: seq<map<string, string>>,
                                          ids: seq<string>)
    requires |writes| == |ids| && ids != [] && Rows(ids, rows)
    ensures RowsAfter(job, rows, writes, ids)[ids[|ids| - 1]] == Outcome(job, rows, writes, ids, |ids| - 1)
  {
    var n := |ids| - 1;
    UnlistedRow(job, rows, writes[..n], ids[..n], ids[n]);
    LastWritePrefix(writes, ids[n], 0, n, n);
  }

  lemma {:induction false} OutcomePrefix(job: Job, rows: map<string, string>, writes: seq<map<string, string>>,
                                         ids: seq<string>, i: nat)
    requires |writes| == |ids| && i < |ids| - 1 && ids[i] in rows
    ensures var n := |ids| - 1;
            Outcome(job, rows, writes, ids, i) ==
            if ids[i] in writes[n] then writes[n][ids[i]] else Outcome(job, rows, writes[..n], ids[..n], i)
  {
    LastWritePrefix(writes, ids[i], i + 1, |ids| - 1, |ids| - 1);
    LastWritePrefix(writes, ids[i], 0, i + 1, |ids| - 1);
  }

  lemma {:induction false} RowOutcome(job: Job, rows: map<string, string>, writes: seq<map<string, string>>,
                                      ids: seq<string>, i: nat)
    requires |writes| == |ids| && i < |ids| && Rows(ids, rows)
    ensures RowsAfter(job, rows, writes, ids)[ids[i]] == Outcome(job, rows, writes, ids, i)
    decreases |ids|
  {
    var n := |ids| - 1;
    if i == n {
      LastRowOutcome(job, rows, writes, ids);
    } else {
      RowOutcome(job, rows, writes[..n], ids[..n], i);
      OutcomePrefix(job, rows, writes, ids, i);
    }
  }

  ghost predicate Quiet(writes: seq<map<string, string>>) {
    forall i :: 0 <= i < |writes| ==> writes[i] == map[]
  }

  /** Without such writes the pass gives every row the value of its fate. */
  lemma {:induction false} QuietPass(job: Job, rows: map<string, string>, writes: seq<map<string, string>>,
                                     ids: seq<string>)
    requires |writes| == |ids| && Lists(ids, rows) && Quiet(writes)
    ensures RowsAfter(job, rows, writes, ids) == ColumnAfter(job, rows)
  {
    QuietKeys(job, rows, writes, ids);
    forall id | id in rows ensures RowsAfter(job, rows, writes, ids)[id] == ValueAfter(job, id, rows[id]) {
      assert id in ids;
      var i :| 0 <= i < |ids| && ids[i] == id;
      QuietRow(job, rows, writes, ids, i);
    }
  }

  lemma {:induction false} QuietRow(job: Job, rows: map<string, string>, writes: seq<map<string, string>>,
                                    ids: seq<string>, i: nat)
    requires |writes| == |ids| && i < |ids| && Rows(ids, rows) && Quiet(writes)
    ensures RowsAfter(job, rows, writes, ids)[ids[i]] == ValueAfter(job, ids[i], rows[ids[i]])
  {
    RowOutcome(job, rows, writes, ids, i);
    NoWrite(writes, ids[i], i + 1, |ids|);
    NoWrite(writes, ids[i], 0, i + 1);
  }

  lemma {:induction false} NoWrite(writes: seq<map<string, string>>, id: string, lo: nat, hi: nat)
    requires hi <= |writes| && Quiet(writes)
    ensures LastWrite(writes, id, lo, hi).None?
    decreases hi
  {
    if hi > lo { NoWrite(writes, id, lo, hi - 1); }
  }

  lemma {:induction false} QuietKeys(job: Job, rows: map<string, string>, writes: seq<map<string, string>>,
                                     ids: seq<string>)
    requires |writes| == |ids| && Quiet(writes) && forall id :: id in ids ==> id in rows
    ensures RowsAfter(job, rows, writes, ids).Keys == rows.Keys
  {
    if ids != [] { QuietKeys(job, rows, writes[..|ids| - 1], ids[..|ids| - 1]); }
  }

  /** How many of the listed rows have a fate. */
  function Tally(job: Job, values: map<string, string>, ids: seq<string>, which: Fate -> bool): int
    requires forall id :: id in ids ==> id in values
  {
    if ids == [] then 0
    else
      var id := ids[|ids| - 1];
      Tally(job, values, ids[..|ids| - 1], which) + if which(FateOf(job, id, values[id])) then 1 else 0
  }

  ghost predicate Lists(ids: seq<string>, values: map<string, string>) {
    && (forall i, j :: 0 <= i < j < |ids| ==> ids[i] != ids[j])
    && (forall id :: id in ids <==> id in values)
  }

  function IsAlready(): Fate -> bool { (f: Fate) => f.Already? }
  function IsRekeyed(): Fate -> bool { (f: Fate) => f.Rekeyed? }
  function IsFailed(): Fate -> bool { (f: Fate) => f.Failed? }
  function IsTried(): Fate -> bool { (f: Fate) => !f.Empty? && !f.Already? }

  function StatsOf(job: Job, values: map<string, string>, ids: seq<string>): Stats
    requires forall id :: id in ids ==> id in values
  {
    Stats(|ids|, Tally(job, values, ids, IsAlready()), Tally(job, values, ids, IsRekeyed()),
          Tally(job, values, ids, IsFailed()), Tally(job, values, ids, IsTried()))
  }

  function AddFate(s: Stats, f: Fate): Stats {
    match f
    case Empty => s
    case Already => s.(alreadyV2 := s.alreadyV2 + 1)
    case Counted => s.(nonV2Remaining := s.nonV2Remaining + 1)
    case Failed => s.(nonV2Remaining := s.nonV2Remaining + 1, errors := s.errors + 1)
    case Rekeyed(_) => s.(nonV2Remaining := s.nonV2Remaining + 1, rekeyed := s.rekeyed + 1)
  }

  /** One more row. */
  lemma {:induction false} NextRow(job: Job, rows: map<string, string>, writes: seq<map<string, string>>,
                                   ids: seq<string>, i: nat)
    requires |writes| == |ids| && i < |ids| && forall id :: id in ids ==> id in rows
    ensures var now, f := RowsAfter(job, rows, writes[..i], ids[..i]) + writes[i], FateOf(job, ids[i], rows[ids[i]]);
            RowsAfter(job, rows, writes[..i + 1], ids[..i + 1]) == if f.Rekeyed? then now[ids[i] := f.newValue] else now
  {
    assert ids[..i + 1][..i] == ids[..i] && writes[..i + 1][..i] == writes[..i];
  }

  /** One more row: its fate moves the counters. */
  lemma {:induction false} NextStats(job: Job, values: map<string, string>, ids: seq<string>, i: nat)
    requires i < |ids| && forall id :: id in ids ==> id in values
    ensures StatsOf(job, values, ids[..i + 1]).(total := |ids|) ==
            AddFate(StatsOf(job, values, ids[..i]).(total := |ids|), FateOf(job, ids[i], values[ids[i]]))
  {
    var id, done := ids[i], ids[..i];
    assert ids[..i + 1] == done + [id] && (done + [id])[..i] == done;
    TallyNext(job, values, done, id, IsAlready());
    TallyNext(job, values, done, id, IsRekeyed());
    TallyNext(job, values, done, id, IsFailed());
    TallyNext(job, values, done, id, IsTried());
  }

  lemma {:induction false} TallyNext(job: Job, values: map<string, string>, ids: seq<string>, id: string,
                                     which: Fate -> bool)
    requires forall k :: k in ids + [id] ==> k in values
    ensures Tally(job, values, ids + [id], which) ==
            Tally(job, values, ids, which) + if which(FateOf(job, id, values[id])) then 1 else 0
  {
    assert (ids + [id])[..|ids|] == ids;
  }

  class Column {
    /** The non-NULL values of the column, by row id. */
    var values: map<string, string>

    constructor (values: map<string, string>)
      ensures this.values == values
    {
      this.values := values;
    }
  }

  /** The body of the row loop, for a row as the SELECT returned it. */
  method ProcessRow(col: Column, job: Job, id: string, value: string, stats: Stats) returns (after: Stats)
    modifies col
    ensures var f := FateOf(job, id, value);
            col.values == if f.Rekeyed? then old(col.values)[id := f.newValue] else old(col.values)
    ensures after == AddFate(stats, FateOf(job, id, value))
  {
    after := stats;
    if value == "" { return; }
    if IsV2(value) {
      after := after.(alreadyV2 := after.alreadyV2 + 1);
      return;
    }
    after := after.(nonV2Remaining := after.nonV2Remaining + 1);
    if job.mode.Verify? { return; }
    var text := DecryptAny(job.c, value, job.key);
    if text.None? {
      after := after.(errors := after.errors + 1);
      return;
    }
    if job.mode.DryRun? { return; }
    var rekeyed := EncryptV2(job.c, text.value, job.key, job.draws(id).salt, job.draws(id).iv);
    if job.draws(id).updates {
      col.values := col.values[id := rekeyed];
      after := after.(rekeyed := after.rekeyed + 1);
    } else {
      after := after.(errors := after.errors + 1);
    }
  }

  /** processColumn. `ids` is the order in which the SELECT returned the rows; a failing
      SELECT (missing table) skips the column. `writes` is what the application writes
      in between. */
  method ProcessColumn(col: Column, job: Job, ids: seq<string>, selects: bool, writes: seq<map<string, string>>)
    returns (stats: Stats)
    requires Lists(ids, col.values) && |writes| == |ids|
    modifies col
    ensures !selects ==> col.values == old(col.values) && stats == Stats(0, 0, 0, 0, 0)
    ensures selects ==> stats == StatsOf(job, old(col.values), ids)
    ensures selects ==> col.values == RowsAfter(job, old(col.values), writes, ids)
  {
    stats := Stats(0, 0, 0, 0, 0);
    if !selects { return; }
    var rows := col.values;
    stats := stats.(total := |ids|);
    for i := 0 to |ids|
      invariant col.values == RowsAfter(job, rows, writes[..i], ids[..i])
      invariant stats == StatsOf(job, rows, ids[..i]).(total := |ids|)
    {
      NextRow(job, rows, writes, ids, i);
      NextStats(job, rows, ids, i);
      col.values := col.values + writes[i];
      stats := ProcessRow(col, job, ids[i], rows[ids[i]], stats);
    }
    assert ids[..|ids|] == ids && writes[..|ids|] == writes;
  }

  /** What becomes of a row, case by case. */
  lemma {:induction false} FateIs(job: Job, id: string, value: string)
    ensures FateOf(job, id, value) == Empty <==> value == ""
    ensures FateOf(job, id, value) == Already <==> "v2:" <= value
    ensures FateOf(job, id, value) == Failed <==>
            && value != "" && !("v2:" <= value) && job.mode != Verify
            && (DecryptAny(job.c, value, job.key) == None || (job.mode == Live && !job.draws(id).updates))
    ensures FateOf(job, id, value).Rekeyed? <==>
            && value != "" && !("v2:" <= value) && job.mode == Live
            && DecryptAny(job.c, value, job.key) != None && job.draws(id).updates
    ensures FateOf(job, id, value).Rekeyed? ==>
              FateOf(job, id, value).newValue ==
              EncryptV2(job.c, DecryptAny(job.c, value, job.key).value, job.key, job.draws(id).salt, job.draws(id).iv)
  {
  }

  /** How many of the listed rows there are of a kind. */
  ghost function Number(rows: map<string, string>, ids: seq<string>, kind: (string, string) -> bool): nat
    requires forall id :: id in ids ==> id in rows
  {
    if ids == [] then 0
    else
      var id := ids[|ids| - 1];
      Number(rows, ids[..|ids| - 1], kind) + if kind(id, rows[id]) then 1 else 0
  }

  ghost function Prefixed(): (string, string) -> bool { (id: string, value: string) => "v2:" <= value }
  ghost function Unprefixed(): (string, string) -> bool {
    (id: string, value: string) => value != "" && !("v2:" <= value)
  }
  ghost function OfFate(job: Job, which: Fate -> bool): (string, string) -> bool {
    (id: string, value: string) => which(FateOf(job, id, value))
  }

  /** THE COUNTERS: all rows, those with the marker, those without it, and of these the
      rekeyed and the failed. */
  lemma {:induction false} StatsCount(job: Job, rows: map<string, string>, ids: seq<string>)
    requires forall id :: id in ids ==> id in rows
    ensures var s := StatsOf(job, rows, ids);
            && s.total == |ids|
            && s.alreadyV2 == Number(rows, ids, Prefixed())
            && s.nonV2Remaining == Number(rows, ids, Unprefixed())
            && s.rekeyed == Number(rows, ids, OfFate(job, (f: Fate) => f.Rekeyed?))
            && s.errors == Number(rows, ids, OfFate(job, (f: Fate) => f == Failed))
  {
    TallyNumber(job, rows, ids, IsAlready(), Prefixed());
    TallyNumber(job, rows, ids, IsTried(), Unprefixed());
    TallyNumber(job, rows, ids, IsRekeyed(), OfFate(job, (f: Fate) => f.Rekeyed?));
    TallyNumber(job, rows, ids, IsFailed(), OfFate(job, (f: Fate) => f == Failed));
  }

  lemma {:induction false} TallyNumber(job: Job, rows: map<string, string>, ids: seq<string>, which: Fate -> bool,
                                       kind: (string, string) -> bool)
    requires forall id :: id in ids ==> id in rows
    requires forall id, value :: kind(id, value) <==> which(FateOf(job, id, value))
    ensures Tally(job, rows, ids, which) == Number(rows, ids, kind)
  {
    if ids != [] { TallyNumber(job, rows, ids[..|ids| - 1], which, kind); }
  }

  // ----- What a pass guarantees -----

  /** PLAINTEXT PRESERVED. A row that could be read before, and was not left in error by
      a live pass, is afterwards read by crypto.decrypt as the same plaintext. Rows left
      in error keep their value. */
  lemma {:induction false} RekeyPreserves(job: Job, id: string, value: string)
    requires job.Valid() && job.mode.Live? && value != ""
    ensures FateOf(job, id, value).Failed? ==> ValueAfter(job, id, value) == value
    ensures !FateOf(job, id, value).Failed? ==>
              Decrypt(job.c, ValueAfter(job, id, value), job.key) == DecryptAny(job.c, value, job.key)
    ensures !FateOf(job, id, value).Failed? ==> IsV2(ValueAfter(job, id, value)) && ValueAfter(job, id, value) != ""
  {
    var f := FateOf(job, id, value);
    if f.Rekeyed? {
      V2RoundTrip(job.c, DecryptAny(job.c, value, job.key).value, job.key, job.draws(id).salt, job.draws(id).iv);
    }
  }

  /** WRITES DURING A PASS. A live pass loses the plaintext the application stored last in
      a row if and only if it rekeys the row, the application wrote another plaintext
      between the SELECT and the row's UPDATE, and did not write to it afterwards. */
  lemma {:induction false} WriteLostIff(job: Job, rows: map<string, string>, writes: seq<map<string, string>>,
                                        ids: seq<string>, i: nat)
    requires job.Valid() && job.mode.Live? && |writes| == |ids| && i < |ids| && Lists(ids, rows)
    ensures var id := ids[i];
            var early, late := LastWrite(writes, id, 0, i + 1), LastWrite(writes, id, i + 1, |ids|);
            var meant := OrElse(late, OrElse(early, rows[id]));
            DecryptAny(job.c, RowsAfter(job, rows, writes, ids)[id], job.key) != DecryptAny(job.c, meant, job.key) <==>
            && FateOf(job, id, rows[id]).Rekeyed? && early.Some? && late.None?
            && DecryptAny(job.c, early.value, job.key) != DecryptAny(job.c, rows[id], job.key)
  {
    var id := ids[i];
    RowOutcome(job, rows, writes, ids, i);
    if FateOf(job, id, rows[id]).Rekeyed? { RekeyPreserves(job, id, rows[id]); }
  }

  /** A DRY RUN PREDICTS. It writes nothing, and meets the errors and counts the rows
      that a live pass whose updates all go through meets and rekeys. */
  lemma {:induction false} DryRunPredicts(dry: Job, live: Job, values: map<string, string>, ids: seq<string>)
    requires forall id :: id in ids ==> id in values
    requires dry.mode.DryRun? && live.mode.Live? && dry.c == live.c && dry.key == live.key
    requires forall id :: id in ids ==> live.draws(id).updates
    ensures ColumnAfter(dry, values) == values
    ensures var d, l := StatsOf(dry, values, ids), StatsOf(live, values, ids);
            && d.errors == l.errors && d.alreadyV2 == l.alreadyV2 && d.nonV2Remaining == l.nonV2Remaining
            && d.rekeyed == 0 && l.rekeyed == d.nonV2Remaining - d.errors
  {
    if ids != [] {
      assert ids[|ids| - 1] in ids;
      DryRunPredicts(dry, live, values, ids[..|ids| - 1]);
    }
  }

  lemma {:induction false} TallyBounds(job: Job, values: map<string, string>, ids: seq<string>, which: Fate -> bool)
    requires forall id :: id in ids ==> id in values
    ensures 0 <= Tally(job, values, ids, which) <= |ids|
    ensures Tally(job, values, ids, which) == 0 <==> forall id :: id in ids ==> !which(FateOf(job, id, values[id]))
  {
    if ids != [] {
      TallyBounds(job, values, ids[..|ids| - 1], which);
      assert ids == ids[..|ids| - 1] + [ids[|ids| - 1]];
    }
  }

  /** In a live pass every row that was not v2 ends up rekeyed or in error. */
  lemma {:induction false} LiveAccountsForAll(job: Job, values: map<string, string>, ids: seq<string>)
    requires forall id :: id in ids ==> id in values
    requires job.mode.Live?
    ensures var s := StatsOf(job, values, ids); s.nonV2Remaining == s.rekeyed + s.errors
  {
    if ids != [] { LiveAccountsForAll(job, values, ids[..|ids| - 1]); }
  }

  /** The verification gate passes exactly when every non-empty value has the prefix. */
  lemma {:induction false} VerifyGate(job: Job, values: map<string, string>, ids: seq<string>)
    requires Lists(ids, values)
    ensures StatsOf(job, values, ids).nonV2Remaining == 0 <==> forall id ::
              id in values && values[id] != "" ==> IsV2(values[id])
  {
    TallyBounds(job, values, ids, IsTried());
  }

  /** A value that needs no pass. */
  predicate Current(value: string) { value == "" || IsV2(value) }

  /** The application only ever stores what encrypt gave it, or nothing. */
  ghost predicate WritesCurrent(writes: seq<map<string, string>>) {
    forall i, id :: 0 <= i < |writes| && id in writes[i] ==> Current(writes[i][id])
  }

  /** No listed row is left in error. */
  ghost predicate NoneFailed(job: Job, rows: map<string, string>, ids: seq<string>)
    requires forall id :: id in ids ==> id in rows
  {
    forall id :: id in ids ==> !FateOf(job, id, rows[id]).Failed?
  }

  lemma {:induction false} TreatedCurrent(job: Job, rows: map<string, string>, writes: seq<map<string, string>>,
                                          ids: seq<string>)
    requires |writes| == |ids| && forall id :: id in ids ==> id in rows
    requires job.Valid() && job.mode.Live? && WritesCurrent(writes) && NoneFailed(job, rows, ids)
    ensures var after := RowsAfter(job, rows, writes, ids);
            forall id :: id in after ==> Current(after[id]) || (id in rows && id !in ids && after[id] == rows[id])
  {
    if ids != [] {
      var n := |ids| - 1;
      TreatedCurrent(job, rows, writes[..n], ids[..n]);
      assert ids == ids[..n] + [ids[n]];
      if rows[ids[n]] != "" { RekeyPreserves(job, ids[n], rows[ids[n]]); }
    }
  }

  /** IDEMPOTENCE. After a live pass without errors, during which the application wrote
      only current values, every value is current. Every further pass, in any mode, with
      any draws and any order of the rows, finds nothing to rekey, no errors and no value
      to change. */
  lemma {:induction false} SecondPassIdle(first: Job, again: Job, rows: map<string, string>,
                                          writes: seq<map<string, string>>, ids: seq<string>, order: seq<string>)
    requires first.Valid() && first.mode.Live? && Lists(ids, rows) && |writes| == |ids| && WritesCurrent(writes)
    requires StatsOf(first, rows, ids).errors == 0 && Lists(order, RowsAfter(first, rows, writes, ids))
    ensures var after := RowsAfter(first, rows, writes, ids);
            && (forall id :: id in after ==> Current(after[id]))
            && ColumnAfter(again, after) == after
            && StatsOf(again, after, order) == Stats(|order|, StatsOf(again, after, order).alreadyV2, 0, 0, 0)
  {
    var after := RowsAfter(first, rows, writes, ids);
    TallyBounds(first, rows, ids, IsFailed());
    TreatedCurrent(first, rows, writes, ids);
    forall id | id in after ensures FateOf(again, id, after[id]).Empty? || FateOf(again, id, after[id]).Already? {}
    TallyBounds(again, after, order, IsRekeyed());
    TallyBounds(again, after, order, IsFailed());
    TallyBounds(again, after, order, IsTried());
  }

  // ----- A cipher, and a write that is lost -----

  /** Three bytes a character. */
  function ThreeBytes(c: char): (b: Bytes)
    ensures |b| == 3 && CharOf(b) == [c]
  {
    var n := c as int;
    assert 65536 * (n / 65536) + 256 * (n / 256 % 256) + n % 256 == n;
    [n / 65536, n / 256 % 256, n % 256]
  }

  function CharOf(b: Bytes): string
    requires |b| == 3
  {
    var high: int, mid: int, low: int := b[0], b[1], b[2];
    var n := 65536 * high + 256 * mid + low;
    if 0 <= n < 0xD800 || 0xE000 <= n < 0x11_0000 then [n as char] else ""
  }

  function CharBytes(text: string): Bytes {
    if text == "" then [] else ThreeBytes(text[0]) + CharBytes(text[1..])
  }

  function BytesText(b: Bytes): string {
    if |b| < 3 then "" else CharOf(b[..3]) + BytesText(b[3..])
  }

  lemma {:induction false} BytesRoundTrip(text: string)
    ensures BytesText(CharBytes(text)) == text
  {
    if text != "" {
      BytesRoundTrip(text[1..]);
      assert CharBytes(text)[..3] == ThreeBytes(text[0]) && CharBytes(text)[3..] == CharBytes(text[1..]);
      assert text == [text[0]] + text[1..];
    }
  }

  const Tag: Bytes := seq(16, _ => 0)

  /** A cipher that hides nothing: enough to show that sound ciphers exist. */
  function PlainCipher(): Cipher {
    Cipher((secret: string, salt: string) => secret,
           (key: string, iv: Bytes, text: string) => (Tag, CharBytes(text)),
           (key: string, iv: Bytes, tag: Bytes, payload: Bytes) => Some(BytesText(payload)))
  }

  lemma {:induction false} PlainCipherSound()
    ensures PlainCipher().Sound()
  {
    forall text ensures BytesText(CharBytes(text)) == text { BytesRoundTrip(text); }
  }

  function PlainJob(key: string, salt: Bytes, iv: Bytes): Job {
    Job(PlainCipher(), key, Live, (id: string) => Draw(salt, iv, true))
  }

  /** A witness: the application replaces an old value after the SELECT and before the
      row's UPDATE, and the pass sets it back. */
  lemma {:induction false} WriteLostWitness(key: string, salt: Bytes, iv: Bytes)
    requires |salt| == SaltLen && |iv| == 12
    ensures var job := PlainJob(key, salt, iv);
            var rows := map["r" := EncryptLegacy(job.c, "before", key, iv)];
            var writes := [map["r" := EncryptV2(job.c, "after", key, salt, iv)]];
            && job.Valid()
            && Decrypt(job.c, writes[0]["r"], key) == Some("after")
            && DecryptAny(job.c, RowsAfter(job, rows, writes, ["r"])["r"], key) == Some("before")
  {
    var job := PlainJob(key, salt, iv);
    var rows := map["r" := EncryptLegacy(job.c, "before", key, iv)];
    var writes := [map["r" := EncryptV2(job.c, "after", key, salt, iv)]];
    PlainCipherSound();
    V2RoundTrip(job.c, "after", key, salt, iv);
    LegacyReadable(job.c, "before", key, iv);
    LegacyRoundTrip(job.c, "before", key, iv);
    assert FateOf(job, "r", rows["r"]).Rekeyed?;
    RekeyPreserves(job, "r", rows["r"]);
    RowOutcome(job, rows, writes, ["r"], 0);
  }
}
