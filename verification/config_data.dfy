/** The text that is hashed for a ConfigMap: "key=value\n" for every key in sorted order,
    and when two ConfigMaps can share it. */
module ConfigData {

  // ---------- string order, as sort.Strings has it ----------

  predicate Less(s: string, t: string) {
    if t == [] then false
    else if s == [] then true
    else s[0] < t[0] || (s[0] == t[0] && Less(s[1..], t[1..]))
  }

  lemma {:induction false} LessIsTotal(s: string, t: string)
    ensures Less(s, t) || Less(t, s) || s == t
    ensures !(Less(s, t) && Less(t, s)) && !Less(s, s)
  {
    if s != [] {
      LessIsTotal(s[1..], s[1..]);
    }
    if s != [] && t != [] {
      LessIsTotal(s[1..], t[1..]);
      if s[0] == t[0] && s[1..] == t[1..] {
        assert s == [s[0]] + s[1..] && t == [t[0]] + t[1..];
      }
    }
  }

  lemma {:induction false} LessIsTransitive(s: string, t: string, u: string)
    requires Less(s, t) && Less(t, u)
    ensures Less(s, u)
  {
    if s != [] && s[0] == t[0] == u[0] {
      LessIsTransitive(s[1..], t[1..], u[1..]);
    }
  }

  /** One is less than the other exactly when, after some common beginning, it ends or goes on
      with a smaller character. */
  predicate LessAt(s: string, t: string, n: int) {
    0 <= n <= |s| && n < |t| && s[..n] == t[..n] && (n == |s| || s[n] < t[n])
  }

  lemma {:induction false} LessIff(s: string, t: string)
    ensures Less(s, t) <==> exists n :: LessAt(s, t, n)
  {
    if Less(s, t) && s != [] && s[0] == t[0] {
      LessIff(s[1..], t[1..]);
      var n :| LessAt(s[1..], t[1..], n);
      assert s[..n+1] == [s[0]] + s[1..][..n] && t[..n+1] == [t[0]] + t[1..][..n];
      assert LessAt(s, t, n + 1);
    } else if Less(s, t) {
      assert LessAt(s, t, 0);
    }
    forall n | LessAt(s, t, n) ensures Less(s, t) {
      if n > 0 {
        assert s[0] == s[..n][0] && t[0] == t[..n][0];
        assert s[1..][..n-1] == s[..n][1..] && t[1..][..n-1] == t[..n][1..];
        assert LessAt(s[1..], t[1..], n - 1);
        LessIff(s[1..], t[1..]);
      }
    }
  }

  predicate Ascending(ks: seq<string>) {
    forall i, j :: 0 <= i < j < |ks| ==> Less(ks[i], ks[j])
  }

  function Insert(k: string, ks: seq<string>): seq<string> {
    if ks == [] then [k]
    else if Less(k, ks[0]) then [k] + ks
    else [ks[0]] + Insert(k, ks[1..])
  }

  lemma {:induction false} InsertKeepsOrder(k: string, ks: seq<string>)
    requires Ascending(ks) && k !in ks
    ensures Ascending(Insert(k, ks))
    ensures forall x :: x in Insert(k, ks) <==> x == k || x in ks
  {
    if ks != [] {
      LessIsTotal(k, ks[0]);
      if Less(k, ks[0]) {
        forall j | 0 <= j < |ks| ensures Less(k, ks[j]) {
          if j > 0 {
            LessIsTransitive(k, ks[0], ks[j]);
          }
        }
      } else {
        InsertKeepsOrder(k, ks[1..]);
        var rest := Insert(k, ks[1..]);
        forall j | 0 <= j < |rest| ensures Less(ks[0], rest[j]) {
          assert rest[j] in rest;
        }
      }
    }
  }

  /** An ascending list is determined by its members, so the order in which a map is
      ranged over leaves no trace. */
  lemma {:induction false} AscendingIsUnique(ks: seq<string>, ls: seq<string>)
    requires Ascending(ks) && Ascending(ls) && forall x :: x in ks <==> x in ls
    ensures ks == ls
  {
    assert ks != [] ==> ks[0] in ks;
    assert ls != [] ==> ls[0] in ls;
    if ks != [] {
      var i :| 0 <= i < |ls| && ls[i] == ks[0];
      var j :| 0 <= j < |ks| && ks[j] == ls[0];
      LessIsTotal(ks[0], ls[0]);
      assert ks[0] == ls[0];
      forall x ensures x in ks[1..] <==> x in ls[1..] {
        LessIsTotal(ks[0], ks[0]);
        assert x in ks[1..] <==> x in ks && x != ks[0] by { InTail(ks, x); }
        assert x in ls[1..] <==> x in ls && x != ls[0] by { InTail(ls, x); }
      }
      AscendingIsUnique(ks[1..], ls[1..]);
      assert ks == [ks[0]] + ks[1..] && ls == [ls[0]] + ls[1..];
    }
  }

  lemma InTail(ks: seq<string>, x: string)
    requires Ascending(ks) && ks != []
    ensures x in ks[1..] <==> x in ks && x != ks[0]
  {
    LessIsTotal(ks[0], ks[0]);
    if x in ks[1..] {
      var i :| 0 <= i < |ks| - 1 && ks[1..][i] == x;
      assert Less(ks[0], ks[i+1]);
    }
  }

  ghost function InOrder(keys: set<string>): (ks: seq<string>)
    ensures Ascending(ks) && forall x :: x in ks <==> x in keys
  {
    if keys == {} then []
    else
      var k :| k in keys;
      InsertKeepsOrder(k, InOrder(keys - {k}));
      Insert(k, InOrder(keys - {k}))
  }

  // ---------- the encoding ----------

  function Line(k: string, v: string): string {
    k + "=" + v + "\n"
  }

  function Lines(ks: seq<string>, data: map<string, string>): string
    requires forall k :: k in ks ==> k in data
  {
    if ks == [] then "" else Line(ks[0], data[ks[0]]) + Lines(ks[1..], data)
  }

  ghost function Encode(data: map<string, string>): string {
    Lines(InOrder(data.Keys), data)
  }

  lemma {:induction false} LinesAppend(ks: seq<string>, ls: seq<string>, data: map<string, string>)
    requires forall k :: k in ks + ls ==> k in data
    ensures (forall k :: k in ks ==> k in data) && (forall k :: k in ls ==> k in data)
    ensures Lines(ks + ls, data) == Lines(ks, data) + Lines(ls, data)
  {
    assert forall k :: k in ks || k in ls ==> k in ks + ls;
    if ks == [] {
      assert ks + ls == ls;
    } else {
      assert (ks + ls)[1..] == ks[1..] + ls;
      LinesAppend(ks[1..], ls, data);
    }
  }

  lemma {:induction false} LinesAlike(ks: seq<string>, m: map<string, string>, n: map<string, string>)
    requires forall k :: k in ks ==> k in m && k in n && m[k] == n[k]
    ensures Lines(ks, m) == Lines(ks, n)
  {
    if ks != [] {
      LinesAlike(ks[1..], m, n);
    }
  }

  /** An entry alone is its line. */
  lemma EncodeOfOne(k: string, v: string)
    ensures Encode(map[k := v]) == k + "=" + v + "\n"
  {
    var data := map[k := v];
    LessIsTotal(k, k);
    AscendingIsUnique(InOrder(data.Keys), [k]);
    assert Lines([k], data) == Line(k, v) + Lines([], data);
  }

  /** What comes first in the order of the keys comes first in the text, and nothing is in
      between. */
  lemma EncodeAppends(m: map<string, string>, n: map<string, string>)
    requires forall a, b :: a in m && b in n ==> Less(a, b)
    ensures Encode(m + n) == Encode(m) + Encode(n)
  {
    var ks, ls := InOrder(m.Keys), InOrder(n.Keys);
    forall k ensures !(k in m && k in n) {
      LessIsTotal(k, k);
    }
    forall i, j | 0 <= i < j < |ks + ls| ensures Less((ks + ls)[i], (ks + ls)[j]) {
      if i < |ks| <= j {
        assert ks[i] in ks && ls[j - |ks|] in ls;
      }
    }
    AscendingIsUnique(InOrder((m + n).Keys), ks + ls);
    LinesAppend(ks, ls, m + n);
    LinesAlike(ks, m + n, m);
    LinesAlike(ls, m + n, n);
  }

  /** The text fed to SHA-256. */
  method HashInput(data: map<string, string>) returns (text: string)
    ensures text == Encode(data)
  {
    var keys := SortedKeys(data);
    text := WriteLines(keys, data);
  }

  method WriteLines(keys: seq<string>, data: map<string, string>) returns (text: string)
    requires forall k :: k in keys ==> k in data
    ensures text == Lines(keys, data)
  {
    text := "";
    for i := 0 to |keys|
      invariant text + Lines(keys[i..], data) == Lines(keys, data)
    {
      var k := keys[i];
      FirstLine(keys, data, i, text);
      text := text + k;
      text := text + "=";
      text := text + data[k];
      text := text + "\n";
    }
  }

  lemma FirstLine(keys: seq<string>, data: map<string, string>, i: nat, text: string)
    requires i < |keys| && forall k :: k in keys ==> k in data
    ensures var k := keys[i];
      text + Lines(keys[i..], data) == (((text + k) + "=") + data[k]) + "\n" + Lines(keys[i+1..], data)
  {
    assert keys[i..][1..] == keys[i+1..];
  }

  /** The keys are collected in an arbitrary order, as ranging over a Go map does. */
  method SortedKeys(data: map<string, string>) returns (keys: seq<string>)
    ensures keys == InOrder(data.Keys)
  {
    keys := [];
    var left := data.Keys;
    while left != {}
      invariant left <= data.Keys
      invariant Ascending(keys) && forall x :: x in keys <==> x in data.Keys - left
      decreases left
    {
      var k :| k in left;
      InsertKeepsOrder(k, keys);
      keys := Insert(k, keys);
      left := left - {k};
    }
    AscendingIsUnique(keys, InOrder(data.Keys));
  }

  // ---------- when the encoding tells two maps apart ----------

  predicate CleanKey(k: string) {
    '=' !in k && '\n' !in k
  }

  predicate CleanKeys(data: map<string, string>) {
    forall k :: k in data ==> CleanKey(k)
  }

  /** After its first line, the value has a line that opens with "k=". */
  predicate HasLine(v: string, k: string) {
    exists i :: 0 <= i < |v| && v[i] == '\n' && k + "=" <= v[i+1..]
  }

  /** A value of `m` goes on with a line that opens like an entry of `n`, one that comes
      after the value's own key. */
  predicate RunsOn(m: map<string, string>, n: map<string, string>) {
    exists a, b :: a in m && b in n && Less(a, b) && HasLine(m[a], b)
  }

  predicate RunsOnList(ks: seq<string>, m: map<string, string>, ls: seq<string>)
    requires forall k :: k in ks ==> k in m
  {
    exists i, j :: 0 <= i < |ks| && 0 <= j < |ls| && Less(ks[i], ls[j]) && HasLine(m[ks[i]], ls[j])
  }

  predicate KeyList(ks: seq<string>, data: map<string, string>) {
    Ascending(ks) && forall k :: k in ks ==> k in data && CleanKey(k)
  }

  /** The first '=' ends the key. */
  lemma KeyEnds(k: string, x: string, k': string, x': string)
    requires CleanKey(k) && CleanKey(k') && k + "=" + x == k' + "=" + x'
    ensures k == k' && x == x'
  {
    KeyNotLonger(k, x, k', x');
    KeyNotLonger(k', x', k, x);
    var s, s' := k + "=" + x, k' + "=" + x';
    assert k == s[..|k|] == s'[..|k|] == k';
    assert x == s[|k|+1..] == s'[|k|+1..] == x';
  }

  lemma KeyNotLonger(k: string, x: string, k': string, x': string)
    requires CleanKey(k') && k + "=" + x == k' + "=" + x'
    ensures |k| >= |k'|
  {
    var s, s' := k + "=" + x, k' + "=" + x';
    assert s[|k|] == '=';
    assert forall i :: 0 <= i < |k'| ==> s'[i] == k'[i];
  }

  /** The longer of two values reaches into what follows the shorter one. */
  lemma LongerValueReachesOn(v: string, rest: string, v': string, rest': string)
    requires v + "\n" + rest == v' + "\n" + rest' && |v| < |v'|
    ensures v'[|v|] == '\n' && |rest| >= |v'| - |v|
    ensures forall i :: 0 <= i < |v'| - |v| - 1 ==> rest[i] == v'[|v| + 1 + i]
    ensures rest[|v'| - |v| - 1] == '\n'
  {
    var s, s' := v + "\n" + rest, v' + "\n" + rest';
    assert |s| == |s'|;
    assert s'[|v|] == v'[|v|] && s'[|v'|] == '\n';
    forall i | 0 <= i < |v'| - |v| - 1 ensures rest[i] == v'[|v| + 1 + i] {
      assert s[|v| + 1 + i] == rest[i] && s'[|v| + 1 + i] == v'[|v| + 1 + i];
    }
    assert s[|v'|] == rest[|v'| - |v| - 1];
  }

  /** If the value under the first key is longer in `n` than in `m`, it has swallowed the
      next entry of `m`. */
  lemma LongerValueRunsOn(ks: seq<string>, m: map<string, string>, ls: seq<string>, n: map<string, string>)
    requires KeyList(ks, m) && KeyList(ls, n) && ks != [] && ls != [] && ks[0] == ls[0]
    requires m[ks[0]] + "\n" + Lines(ks[1..], m) == n[ls[0]] + "\n" + Lines(ls[1..], n)
    requires |m[ks[0]]| < |n[ls[0]]|
    ensures RunsOnList(ls, n, ks)
  {
    var v, w := m[ks[0]], n[ls[0]];
    var p, q := Lines(ks[1..], m), Lines(ls[1..], n);
    LongerValueReachesOn(v, p, w, q);
    var k := ks[1];
    assert ks[1..][0] == k && k in ks;
    var opening := k + "=";
    assert p == opening + (m[k] + "\n" + Lines(ks[1..][1..], m));
    assert forall i :: 0 <= i < |opening| ==> p[i] == opening[i] && p[i] != '\n';
    assert |opening| <= |w| - |v| - 1;
    assert opening == w[|v|+1..][..|opening|];
    assert HasLine(w, k);
    assert Less(ls[0], ks[1]);
  }

  lemma FirstEntry(ks: seq<string>, data: map<string, string>)
    requires ks != [] && forall k :: k in ks ==> k in data
    ensures Lines(ks, data) == ks[0] + "=" + (data[ks[0]] + "\n" + Lines(ks[1..], data))
  {}

  lemma EqualSplit(v: string, p: string, w: string, q: string)
    requires v + "\n" + p == w + "\n" + q && |v| == |w|
    ensures v == w && p == q
  {
    var s, t := v + "\n" + p, w + "\n" + q;
    assert v == s[..|v|] && w == t[..|w|];
    assert p == s[|v|+1..] && q == t[|w|+1..];
  }

  lemma FirstEntriesAgree(ks: seq<string>, m: map<string, string>, ls: seq<string>, n: map<string, string>)
    requires KeyList(ks, m) && KeyList(ls, n) && ks != [] && ls != [] && Lines(ks, m) == Lines(ls, n)
    requires !RunsOnList(ks, m, ls) && !RunsOnList(ls, n, ks)
    ensures ks[0] == ls[0] && m[ks[0]] == n[ls[0]] && Lines(ks[1..], m) == Lines(ls[1..], n)
  {
    var v, w := m[ks[0]], n[ls[0]];
    var p, q := Lines(ks[1..], m), Lines(ls[1..], n);
    FirstEntry(ks, m);
    FirstEntry(ls, n);
    KeyEnds(ks[0], v + "\n" + p, ls[0], w + "\n" + q);
    if |v| < |w| {
      LongerValueRunsOn(ks, m, ls, n);
    } else if |w| < |v| {
      LongerValueRunsOn(ls, n, ks, m);
    }
    EqualSplit(v, p, w, q);
  }

  lemma {:induction false} LinesTellApart(
    ks: seq<string>, m: map<string, string>, ls: seq<string>, n: map<string, string>)
    requires KeyList(ks, m) && KeyList(ls, n) && Lines(ks, m) == Lines(ls, n)
    requires !RunsOnList(ks, m, ls) && !RunsOnList(ls, n, ks)
    ensures ks == ls && forall i :: 0 <= i < |ks| ==> m[ks[i]] == n[ks[i]]
  {
    if ks != [] && ls != [] {
      FirstEntriesAgree(ks, m, ls, n);
      TailsDoNotRunOn(ks, m, ls);
      TailsDoNotRunOn(ls, n, ks);
      LinesTellApart(ks[1..], m, ls[1..], n);
      assert ks == [ks[0]] + ks[1..] && ls == [ls[0]] + ls[1..];
    }
  }

  lemma TailsDoNotRunOn(ks: seq<string>, m: map<string, string>, ls: seq<string>)
    requires ks != [] && ls != [] && (forall k :: k in ks ==> k in m) && !RunsOnList(ks, m, ls)
    ensures !RunsOnList(ks[1..], m, ls[1..])
  {
    forall i, j | 0 <= i < |ks[1..]| && 0 <= j < |ls[1..]| && Less(ks[1..][i], ls[1..][j])
      ensures !HasLine(m[ks[1..][i]], ls[1..][j])
    {
      assert ks[1..][i] == ks[i+1] && ls[1..][j] == ls[j+1];
    }
  }

  /** The encoding tells data apart unless a value of one goes on with a line that opens
      like a later entry of the other. */
  lemma EncodeIsInjective(m: map<string, string>, n: map<string, string>)
    requires CleanKeys(m) && CleanKeys(n) && !RunsOn(m, n) && !RunsOn(n, m)
    ensures Encode(m) == Encode(n) <==> m == n
  {
    if Encode(m) == Encode(n) {
      var ks, ls := InOrder(m.Keys), InOrder(n.Keys);
      LinesTellApart(ks, m, ls, n);
      assert forall x :: x in m.Keys <==> x in ks;
      assert forall x :: x in n.Keys <==> x in ls;
      assert m.Keys == n.Keys;
      forall k | k in m ensures m[k] == n[k] {
        assert k in ks;
        var i :| 0 <= i < |ks| && ks[i] == k;
      }
    }
  }

  /** So, unless the hash collides on the two texts, such data has the same checksum exactly
      when it is the same. */
  lemma ChecksumFollowsData(sha: string -> string, m: map<string, string>, n: map<string, string>)
    requires sha(Encode(m)) == sha(Encode(n)) ==> Encode(m) == Encode(n)
    requires CleanKeys(m) && CleanKeys(n) && !RunsOn(m, n) && !RunsOn(n, m)
    ensures sha(Encode(m)) == sha(Encode(n)) <==> m == n
  {
    EncodeIsInjective(m, n);
  }

  /** And such lines do collide: a value that goes on with a line "b=..." reads like an
      extra entry, for every pair of keys in order and all texts. */
  lemma ContinuationLinesCollide(a: string, b: string, x: string, y: string)
    requires Less(a, b)
    ensures Encode(map[a := x + "\n" + b + "=" + y]) == Encode(map[a := x, b := y])
    ensures map[a := x + "\n" + b + "=" + y] != map[a := x, b := y]
  {
    var v := x + "\n" + b + "=" + y;
    EncodeOfOne(a, v);
    EncodeOfTwo(a, b, x, y);
    ContinuationReadsAlike(a, b, x, y);
    LessIsTotal(a, b);
    assert b in map[a := x, b := y] && b !in map[a := v];
  }

  lemma ContinuationReadsAlike(a: string, b: string, x: string, y: string)
    ensures Line(a, x + "\n" + b + "=" + y) == Line(a, x) + Line(b, y)
  {}

  lemma EncodeOfTwo(a: string, b: string, x: string, y: string)
    requires Less(a, b)
    ensures Encode(map[a := x, b := y]) == Line(a, x) + Line(b, y)
  {
    LessIsTotal(a, b);
    EncodeOfOne(a, x);
    EncodeOfOne(b, y);
    EncodeAppends(map[a := x], map[b := y]);
    assert map[a := x] + map[b := y] == map[a := x, b := y];
  }

  // ---------- which data shares its encoding ----------

  /** Other data with keys as clean, and the same encoding. */
  ghost predicate SharesEncoding(m: map<string, string>, n: map<string, string>) {
    CleanKeys(n) && n != m && Encode(n) == Encode(m)
  }

  /** Some value goes on with a line that opens like an entry after its own. */
  ghost predicate HasOpening(m: map<string, string>) {
    exists a, b :: a in m && CleanKey(b) && Less(a, b) && HasLine(m[a], b)
  }

  /** Data is the only one with its encoding exactly when it has at most one entry and that
      has no such line.  Any two entries can be folded into one. */
  lemma EncodingIsSharedIff(m: map<string, string>)
    requires CleanKeys(m)
    ensures (exists n :: SharesEncoding(m, n)) <==> |m| >= 2 || HasOpening(m)
  {
    if |m| >= 2 {
      var n := FoldSecond(m);
      assert SharesEncoding(m, n);
    } else if HasOpening(m) {
      var n := SplitOnly(m);
      assert SharesEncoding(m, n);
    } else if n :| SharesEncoding(m, n) {
      SmallDataIsAlone(m, n);
    }
  }

  lemma {:induction false} AscendingLength(ks: seq<string>, keys: set<string>)
    requires Ascending(ks) && forall x :: x in ks <==> x in keys
    ensures |ks| == |keys|
  {
    if ks == [] {
      assert keys == {};
    } else {
      forall x ensures x in ks[1..] <==> x in keys - {ks[0]} {
        InTail(ks, x);
      }
      assert ks[0] in keys;
      AscendingLength(ks[1..], keys - {ks[0]});
    }
  }

  /** The second entry folded into the first value. */
  lemma FoldSecond(m: map<string, string>) returns (n: map<string, string>)
    requires CleanKeys(m) && |m| >= 2
    ensures SharesEncoding(m, n)
  {
    var ks := InOrder(m.Keys);
    AscendingLength(ks, m.Keys);
    assert |m| == |m.Keys|;
    var a, b := ks[0], ks[1];
    assert a in ks && b in ks;
    n := (m - {b})[a := m[a] + "\n" + b + "=" + m[b]];
    LessIsTotal(a, b);
    FoldedKeys(m, n, ks);
    AscendingIsUnique([a] + ks[2..], InOrder(n.Keys));
    FoldedLines(m, n, ks);
    assert b in m && b !in n;
  }

  lemma FoldedLines(m: map<string, string>, n: map<string, string>, ks: seq<string>)
    requires ks == InOrder(m.Keys) && |ks| >= 2 && ks[0] in m && ks[1] in m
    requires n == (m - {ks[1]})[ks[0] := m[ks[0]] + "\n" + ks[1] + "=" + m[ks[1]]]
    requires forall x :: x in [ks[0]] + ks[2..] <==> x in n.Keys
    ensures Lines([ks[0]] + ks[2..], n) == Lines(ks, m)
  {
    var a, b, rest := ks[0], ks[1], ks[2..];
    forall k | k in rest ensures k in m && k in n && m[k] == n[k] {
      var i :| 0 <= i < |rest| && rest[i] == k;
      assert ks[i+2] == k && ks[i+2] in ks && Less(a, k);
      assert k in [a] + rest;
      LessIsTotal(a, k);
    }
    LinesAlike(rest, m, n);
    ContinuationReadsAlike(a, b, m[a], m[b]);
    TwoLines(ks, m);
    assert ([a] + rest)[1..] == rest;
  }

  lemma TwoLines(ks: seq<string>, m: map<string, string>)
    requires |ks| >= 2 && forall k :: k in ks ==> k in m
    ensures Lines(ks, m) == Line(ks[0], m[ks[0]]) + Line(ks[1], m[ks[1]]) + Lines(ks[2..], m)
  {
    assert ks[1..][0] == ks[1] && ks[1..][1..] == ks[2..];
  }

  lemma FoldedKeys(m: map<string, string>, n: map<string, string>, ks: seq<string>)
    requires ks == InOrder(m.Keys) && |ks| >= 2 && n.Keys == m.Keys - {ks[1]}
    ensures Ascending([ks[0]] + ks[2..])
    ensures forall x :: x in [ks[0]] + ks[2..] <==> x in n.Keys
  {
    FoldedOrder(ks);
    assert ks[1..][1..] == ks[2..] && ks[1..][0] == ks[1];
    forall x ensures x in [ks[0]] + ks[2..] <==> x in n.Keys {
      InTail(ks, x);
      InTail(ks[1..], x);
      assert x == ks[0] ==> x in ks;
    }
  }

  lemma FoldedOrder(ks: seq<string>)
    requires Ascending(ks) && |ks| >= 2
    ensures Ascending([ks[0]] + ks[2..]) && Ascending(ks[1..]) && ks[0] != ks[1]
  {
    var ls := [ks[0]] + ks[2..];
    LessIsTotal(ks[0], ks[1]);
    assert Less(ks[0], ks[1]);
    forall i, j | 0 <= i < j < |ls| ensures Less(ls[i], ls[j]) {
      assert ls[j] == ks[j+1] && ls[i] == if i == 0 then ks[0] else ks[i+1];
    }
  }

  lemma CutAt(v: string, i: nat, b: string, x: string, y: string)
    requires i < |v| && v[i] == '\n' && b + "=" <= v[i+1..] && x == v[..i] && y == v[i+1..][|b|+1..]
    ensures v == x + "\n" + b + "=" + y
  {
    var rest := v[i+1..];
    assert rest[..|b|+1] == b + "=";
    assert rest == (b + "=") + y;
    assert v == (x + "\n") + rest;
  }

  /** The only value cut in two where it opens another entry. */
  lemma SplitOnly(m: map<string, string>) returns (n: map<string, string>)
    requires CleanKeys(m) && |m| < 2 && HasOpening(m)
    ensures SharesEncoding(m, n)
  {
    var a, b :| a in m && CleanKey(b) && Less(a, b) && HasLine(m[a], b);
    var v := m[a];
    var i :| 0 <= i < |v| && v[i] == '\n' && b + "=" <= v[i+1..];
    var x, y := v[..i], v[i+1..][|b|+1..];
    CutAt(v, i, b, x, y);
    assert m.Keys - {a} == {} by {
      assert |m.Keys - {a}| == |m.Keys| - 1;
    }
    assert m == map[a := v];
    n := map[a := x, b := y];
    ContinuationLinesCollide(a, b, x, y);
  }

  lemma SmallDataIsAlone(m: map<string, string>, n: map<string, string>)
    requires CleanKeys(m) && |m| < 2 && !HasOpening(m)
    ensures !SharesEncoding(m, n)
  {
    if SharesEncoding(m, n) {
      forall a, b | a in n && b in m ensures !Less(a, b) {
        assert m.Keys - {b} == {} by {
          assert |m.Keys - {b}| == |m.Keys| - 1;
        }
        FirstKeyIs(m, n, b);
      }
      assert !RunsOn(m, n) && !RunsOn(n, m);
      EncodeIsInjective(m, n);
    }
  }

  lemma FirstKeyIs(m: map<string, string>, n: map<string, string>, b: string)
    requires CleanKeys(m) && CleanKeys(n) && m.Keys == {b} && n.Keys != {} && Encode(m) == Encode(n)
    ensures forall a :: a in n ==> !Less(a, b)
  {
    var ls := InOrder(n.Keys);
    AscendingIsUnique([b], InOrder(m.Keys));
    var x :| x in n.Keys;
    assert x in ls && ls[0] in ls;
    FirstEntry([b], m);
    FirstEntry(ls, n);
    KeyEnds(b, m[b] + "\n" + Lines([b][1..], m), ls[0], n[ls[0]] + "\n" + Lines(ls[1..], n));
    forall a | a in n ensures !Less(a, b) {
      var i :| 0 <= i < |ls| && ls[i] == a;
      LessIsTotal(a, b);
      assert i > 0 ==> Less(ls[0], ls[i]);
    }
  }
}
