/** The three rewriting passes `pre_process` applies to the lines of the
    Code_Aster command file (`.comm`): each pass finds the first line that
    contains its key as a substring and replaces everything from the first
    `=` on by `= <value>` and a newline. */
module CommandFile {
  import opened Results
  import opened Seqs
  import opened Text

  /** Plate thickness, written from the second design variable. */
  const ThicknessKey: string := "EP"
  /** Plate length, written from the first design variable. */
  const LengthKey: string := "LONG"
  /** Plate width, written from the third design variable. */
  const WidthKey: string := "LARG"

  /** A key that cannot straddle the `=`, the space or the newline a rewrite
      inserts. */
  predicate IsAtomicKey(k: string) {
    |k| > 0 && '=' !in k && ' ' !in k && '\n' !in k
  }

  lemma KeysAreAtomic()
    ensures IsAtomicKey(ThicknessKey) && IsAtomicKey(LengthKey) && IsAtomicKey(WidthKey)
  {
  }

  /** `line.split('=')[0] + '= ' + value + '\n'`. */
  function Rewrite(line: string, value: string): (r: string)
    ensures BeforeFirst(r, '=') == BeforeFirst(line, '=')
    ensures |r| > 0 && r[|r| - 1] == '\n'
  {
    var head := BeforeFirst(line, '=');
    BeforeFirstOfJoin(head, '=', " " + value + "\n");
    assert head + "= " + value + "\n" == head + ['='] + (" " + value + "\n");
    head + "= " + value + "\n"
  }

  /** The rewritten line keeps the original text up to (not including) the
      first `=` of the line, the whole line when it has none, and then holds
      `= `, the value and a newline; so it has exactly one `=` when the value
      has none. */
  lemma RewrittenLineFormat(line: string, value: string) returns (p: nat)
    ensures p <= |line| && '=' !in line[..p] && (p == |line| || line[p] == '=')
    ensures Rewrite(line, value) == line[..p] + "= " + value + "\n"
    ensures '=' !in value ==> multiset(Rewrite(line, value))['='] == 1
  {
    var head := BeforeFirst(line, '=');
    p := |head|;
    assert head == line[..p];
    assert multiset(head)['='] == 0;
    var r := Rewrite(line, value);
    assert r == head + "= " + value + "\n";
    assert multiset(r) == multiset(head) + multiset("= ") + multiset(value) + multiset("\n");
  }

  /** A second rewrite of the same line discards the first one's value. */
  lemma RewriteOverwrites(line: string, first: string, second: string)
    ensures Rewrite(Rewrite(line, first), second) == Rewrite(line, second)
  {
  }

  /** A key line without `=`: its whole text, trailing newline included, is
      kept in front of the new `= value`, so the written element holds a line
      break before its end and reads back as two lines. */
  lemma KeyLineWithoutEquals(line: string, value: string)
    requires '=' !in line && |line| > 0 && line[|line| - 1] == '\n'
    ensures var r := Rewrite(line, value);
      |r| > |line| && r[..|line|] == line && r[|line| - 1] == '\n'
  {
    var head := BeforeFirst(line, '=');
    assert |head| == |line|;
    assert head == line;
  }

  /** Whether a rewritten line contains an atomic key depends only on the
      kept head and on the value text. */
  lemma ContainsRewrite(line: string, value: string, k: string)
    requires IsAtomicKey(k)
    ensures Contains(Rewrite(line, value), k) <==> Contains(BeforeFirst(line, '='), k) || Contains(value, k)
  {
    var head := BeforeFirst(line, '=');
    var tail := value + "\n";
    assert Rewrite(line, value) == head + ['='] + ([] + [' '] + tail);
    ContainsAcross(head, '=', [] + [' '] + tail, k);
    ContainsAcross([], ' ', tail, k);
    assert tail == value + ['\n'] + [];
    ContainsAcross(value, '\n', [], k);
    NotContainsEmpty(k);
  }

  /** The kept head is a prefix, so a key in it is a key in the line. */
  lemma ContainsBeforeFirst(line: string, k: string)
    requires Contains(BeforeFirst(line, '='), k)
    ensures Contains(line, k)
  {
    var i :| 0 <= i <= |BeforeFirst(line, '=')| && OccursAt(BeforeFirst(line, '='), k, i);
    OccursInPrefix(BeforeFirst(line, '='), line, k, i);
  }

  /** Line `i` is the first line containing `key`. */
  predicate IsFirstMatch(lines: seq<string>, key: string, i: int) {
    0 <= i < |lines| && Contains(lines[i], key)
    && forall j :: 0 <= j < i ==> !Contains(lines[j], key)
  }

  /** The index of the first line containing `key`. */
  function FirstLine(lines: seq<string>, key: string): (r: Option<nat>)
    ensures r.None? <==> forall i :: 0 <= i < |lines| ==> !Contains(lines[i], key)
    ensures forall i :: IsFirstMatch(lines, key, i) <==> r == Some(i)
  {
    FirstIndex(lines, (l: string) => Contains(l, key))
  }

  /** One pass of `pre_process`: the first line containing `key` is
      rewritten with `value`; every other line, including later lines that
      also contain `key`, is left as it was. A key found on no line leaves
      the lines unchanged. */
  function Pass(lines: seq<string>, key: string, value: string): (r: seq<string>)
    ensures |r| == |lines|
    ensures forall i :: IsFirstMatch(lines, key, i) ==> r[i] == Rewrite(lines[i], value)
    ensures forall i :: 0 <= i < |lines| && !IsFirstMatch(lines, key, i) ==> r[i] == lines[i]
    ensures (forall i :: 0 <= i < |lines| ==> !Contains(lines[i], key)) ==> r == lines
  {
    match FirstLine(lines, key)
    case None => lines
    case Some(i) => lines[i := Rewrite(lines[i], value)]
  }

  /** The pass as `pre_process` writes it: a `for` loop over the lines that
      rewrites the first match and `break`s. */
  method RewriteFirstMatch(data: seq<string>, key: string, value: string) returns (out: seq<string>)
    ensures out == Pass(data, key, value)
  {
    out := data;
    var i := 0;
    while i < |data|
      invariant 0 <= i <= |data|
      invariant out == data
      invariant forall j :: 0 <= j < i ==> !Contains(data[j], key)
    {
      if Contains(data[i], key) {
        assert IsFirstMatch(data, key, i);
        out := data[i := Rewrite(data[i], value)];
        return;
      }
      i := i + 1;
    }
  }

  /** The three passes in `pre_process`'s order: `EP` gets the thickness, then
      `LONG` the length, then `LARG` the width. */
  function Inject(lines: seq<string>, length: string, thickness: string, width: string): (r: seq<string>)
    ensures |r| == |lines|
    ensures (forall i :: 0 <= i < |lines| ==>
               !Contains(lines[i], ThicknessKey) && !Contains(lines[i], LengthKey)
                 && !Contains(lines[i], WidthKey))
            ==> r == lines
  {
    var afterThickness := Pass(lines, ThicknessKey, thickness);
    var afterLength := Pass(afterThickness, LengthKey, length);
    Pass(afterLength, WidthKey, width)
  }

  /** Every line of `s` is the corresponding line of `lines`, or that line
      rewritten with one of the three values. */
  predicate DerivedFrom(s: seq<string>, lines: seq<string>, length: string, thickness: string,
                        width: string) {
    |s| == |lines|
    && forall i :: 0 <= i < |lines| ==>
         s[i] == lines[i] || s[i] == Rewrite(lines[i], length)
         || s[i] == Rewrite(lines[i], thickness) || s[i] == Rewrite(lines[i], width)
  }

  lemma PassKeepsDerived(s: seq<string>, lines: seq<string>, length: string, thickness: string, width: string,
                         key: string, value: string)
    requires DerivedFrom(s, lines, length, thickness, width)
    requires value == length || value == thickness || value == width
    ensures DerivedFrom(Pass(s, key, value), lines, length, thickness, width)
  {
    var r := Pass(s, key, value);
    forall i | 0 <= i < |lines|
      ensures r[i] == lines[i] || r[i] == Rewrite(lines[i], length)
              || r[i] == Rewrite(lines[i], thickness) || r[i] == Rewrite(lines[i], width)
    {
      RewriteOverwrites(lines[i], length, value);
      RewriteOverwrites(lines[i], thickness, value);
      RewriteOverwrites(lines[i], width, value);
    }
  }

  /** Nothing but the selected lines changes: every written line is the read
      line, or the read line rewritten with one of the three values. */
  lemma InjectOnlyRewrites(lines: seq<string>, length: string, thickness: string, width: string)
    ensures DerivedFrom(Inject(lines, length, thickness, width), lines, length, thickness, width)
  {
    var s1 := Pass(lines, ThicknessKey, thickness);
    PassKeepsDerived(lines, lines, length, thickness, width, ThicknessKey, thickness);
    var s2 := Pass(s1, LengthKey, length);
    PassKeepsDerived(s1, lines, length, thickness, width, LengthKey, length);
    PassKeepsDerived(s2, lines, length, thickness, width, WidthKey, width);
  }

  /** On its first matching line the key appears before the first `=`, and
      no value text contains the key. */
  predicate Unambiguous(lines: seq<string>, key: string, length: string, thickness: string, width: string) {
    (forall i :: 0 <= i < |lines| && IsFirstMatch(lines, key, i)
      ==> Contains(BeforeFirst(lines[i], '='), key))
    && !Contains(length, key) && !Contains(thickness, key) && !Contains(width, key)
  }

  predicate WellFormed(lines: seq<string>, length: string, thickness: string, width: string) {
    && Unambiguous(lines, ThicknessKey, length, thickness, width)
    && Unambiguous(lines, LengthKey, length, thickness, width)
    && Unambiguous(lines, WidthKey, length, thickness, width)
  }

  /** Rewrites made with the three values never move a key's first line. */
  lemma FirstLineStable(s: seq<string>, lines: seq<string>, length: string, thickness: string,
                        width: string, key: string)
    requires IsAtomicKey(key)
    requires DerivedFrom(s, lines, length, thickness, width)
    requires Unambiguous(lines, key, length, thickness, width)
    ensures FirstLine(s, key) == FirstLine(lines, key)
  {
    forall i | 0 <= i < |lines|
      ensures Contains(s[i], key) ==> Contains(lines[i], key)
      ensures IsFirstMatch(lines, key, i) ==> Contains(s[i], key)
    {
      ContainsRewrite(lines[i], length, key);
      ContainsRewrite(lines[i], thickness, key);
      ContainsRewrite(lines[i], width, key);
      if Contains(BeforeFirst(lines[i], '='), key) {
        ContainsBeforeFirst(lines[i], key);
      }
    }
    match FirstLine(lines, key)
    case None =>
    case Some(f) =>
      assert IsFirstMatch(s, key, f);
  }

  /** The value a line ends up carrying: each key selects its first line in
      the file as read, and a line selected by several keys keeps the value
      of the latest pass (`LARG` over `LONG` over `EP`). */
  function AssignedValue(lines: seq<string>, i: nat, length: string, thickness: string,
                         width: string): Option<string> {
    if FirstLine(lines, WidthKey) == Some(i) then Some(width)
    else if FirstLine(lines, LengthKey) == Some(i) then Some(length)
    else if FirstLine(lines, ThicknessKey) == Some(i) then Some(thickness)
    else None
  }

  /** `line` after receiving its assigned value, if any. */
  function Settle(line: string, v: Option<string>): string {
    match v
    case None => line
    case Some(value) => Rewrite(line, value)
  }

  /** The three passes applied to any rewrite-descendant `s` of `lines`
      settle each line according to the keys' first lines in `lines`. */
  lemma {:induction false} InjectFrom(s: seq<string>, lines: seq<string>, length: string,
                                      thickness: string, width: string)
    requires DerivedFrom(s, lines, length, thickness, width)
    requires WellFormed(lines, length, thickness, width)
    ensures var r := Inject(s, length, thickness, width);
      forall i :: 0 <= i < |s| ==> r[i] == Settle(s[i], AssignedValue(lines, i, length, thickness, width))
  {
    KeysAreAtomic();
    var s1 := Pass(s, ThicknessKey, thickness);
    PassAt(s, lines, length, thickness, width, ThicknessKey, thickness);
    PassKeepsDerived(s, lines, length, thickness, width, ThicknessKey, thickness);
    var s2 := Pass(s1, LengthKey, length);
    PassAt(s1, lines, length, thickness, width, LengthKey, length);
    PassKeepsDerived(s1, lines, length, thickness, width, LengthKey, length);
    var s3 := Pass(s2, WidthKey, width);
    PassAt(s2, lines, length, thickness, width, WidthKey, width);
    assert s3 == Inject(s, length, thickness, width);
    forall i | 0 <= i < |s|
      ensures s3[i] == Settle(s[i], AssignedValue(lines, i, length, thickness, width))
    {
      SettleInOrder(s[i], FirstLine(lines, ThicknessKey) == Some(i), FirstLine(lines, LengthKey) == Some(i),
                    FirstLine(lines, WidthKey) == Some(i), thickness, length, width);
    }
  }

  /** A pass over a rewrite-descendant of `lines` rewrites the key's first
      line in `lines` and nothing else. */
  lemma PassAt(s: seq<string>, lines: seq<string>, length: string, thickness: string, width: string,
               key: string, value: string)
    requires IsAtomicKey(key)
    requires DerivedFrom(s, lines, length, thickness, width)
    requires Unambiguous(lines, key, length, thickness, width)
    ensures var r := Pass(s, key, value);
      forall i :: 0 <= i < |s|
        ==> r[i] == if FirstLine(lines, key) == Some(i) then Rewrite(s[i], value) else s[i]
  {
    FirstLineStable(s, lines, length, thickness, width, key);
  }

  /** Three conditional rewrites of one line, in pass order, leave the line
      carrying the value of the last one that applied. */
  lemma SettleInOrder(line: string, first: bool, second: bool, third: bool, a: string, b: string, c: string)
    ensures var l1 := if first then Rewrite(line, a) else line;
      var l2 := if second then Rewrite(l1, b) else l1;
      var l3 := if third then Rewrite(l2, c) else l2;
      l3 == Settle(line, if third then Some(c)
                         else if second then Some(b)
                         else if first then Some(a)
                         else None)
  {
    RewriteOverwrites(line, a, b);
    RewriteOverwrites(line, a, c);
    RewriteOverwrites(line, b, c);
    RewriteOverwrites(Rewrite(line, a), b, c);
  }

  /** The reference reading of the three passes: each key looks its first
      line up in the file as read; selected lines are rewritten with their
      assigned value and all other lines are kept. */
  function Reference(lines: seq<string>, length: string, thickness: string, width: string): (r: seq<string>)
    ensures |r| == |lines|
  {
    seq(|lines|, i requires 0 <= i < |lines|
      => Settle(lines[i], AssignedValue(lines, i, length, thickness, width)))
  }

  /** When every key stands before the `=` on its first line and the values
      contain no key, the sequential passes equal the reference reading. */
  lemma InjectMatchesReference(lines: seq<string>, length: string, thickness: string, width: string)
    requires WellFormed(lines, length, thickness, width)
    ensures Inject(lines, length, thickness, width) == Reference(lines, length, thickness, width)
  {
    InjectFrom(lines, lines, length, thickness, width);
  }

  /** A line that is the first to contain two keys carries the value of the
      later pass. */
  lemma TwoKeysOnOneLine(lines: seq<string>, length: string, thickness: string, width: string, i: nat)
    requires WellFormed(lines, length, thickness, width)
    requires i < |lines|
    ensures IsFirstMatch(lines, LengthKey, i) && IsFirstMatch(lines, WidthKey, i)
            ==> Inject(lines, length, thickness, width)[i] == Rewrite(lines[i], width)
    ensures IsFirstMatch(lines, ThicknessKey, i) && IsFirstMatch(lines, LengthKey, i)
            && !IsFirstMatch(lines, WidthKey, i)
            ==> Inject(lines, length, thickness, width)[i] == Rewrite(lines[i], length)
    ensures IsFirstMatch(lines, ThicknessKey, i) && IsFirstMatch(lines, WidthKey, i)
            ==> Inject(lines, length, thickness, width)[i] == Rewrite(lines[i], width)
  {
    InjectFrom(lines, lines, length, thickness, width);
  }

  /** Injecting the same three values a second time changes nothing. */
  lemma InjectIdempotent(lines: seq<string>, length: string, thickness: string, width: string)
    requires WellFormed(lines, length, thickness, width)
    ensures var once := Inject(lines, length, thickness, width);
      Inject(once, length, thickness, width) == once
  {
    var once := Inject(lines, length, thickness, width);
    InjectFrom(lines, lines, length, thickness, width);
    InjectOnlyRewrites(lines, length, thickness, width);
    InjectFrom(once, lines, length, thickness, width);
    var twice := Inject(once, length, thickness, width);
    forall i | 0 <= i < |lines|
      ensures twice[i] == once[i]
    {
      match AssignedValue(lines, i, length, thickness, width)
      case None =>
      case Some(v) => RewriteOverwrites(lines[i], v, v);
    }
  }

  /** Every line some key selects holds a `=`. */
  predicate KeyLinesHaveEquals(lines: seq<string>) {
    forall i :: 0 <= i < |lines| ==>
      (IsFirstMatch(lines, ThicknessKey, i) || IsFirstMatch(lines, LengthKey, i)
        || IsFirstMatch(lines, WidthKey, i))
      ==> '=' in lines[i]
  }

  /** Rewriting a line that holds a `=` with a value free of newlines gives
      a single line: its only newline is the one at its end. */
  lemma RewriteIsOneLine(line: string, value: string)
    requires '=' in line && '\n' !in value
    requires forall j :: 0 <= j < |line| - 1 ==> line[j] != '\n'
    ensures var r := Rewrite(line, value);
      |r| > 0 && r[|r| - 1] == '\n' && forall j :: 0 <= j < |r| - 1 ==> r[j] != '\n'
  {
    var p := RewrittenLineFormat(line, value);
    var r := Rewrite(line, value);
    forall j | 0 <= j < |r| - 1
      ensures r[j] != '\n'
    {
      if j < p {
        assert r[j] == line[j];
      } else if j >= p + 2 {
        assert r[j] == value[j - p - 2];
      }
    }
  }

  /** A line some key selects holds a `=`, and the value it is assigned is
      one of the three. */
  lemma AssignedLineHasEquals(lines: seq<string>, i: nat, length: string, thickness: string, width: string)
    requires i < |lines| && KeyLinesHaveEquals(lines)
    ensures match AssignedValue(lines, i, length, thickness, width)
      case None => true
      case Some(v) => '=' in lines[i] && (v == length || v == thickness || v == width)
  {
  }

  /** A line of a line-shaped list stays one line once settled. */
  lemma SettleIsOneLine(lines: seq<string>, i: nat, v: Option<string>)
    requires i < |lines| && LineShaped(lines)
    requires v.Some? ==> '=' in lines[i] && '\n' !in v.value
    ensures var r := Settle(lines[i], v);
      && |r| > 0
      && (forall j :: 0 <= j < |r| - 1 ==> r[j] != '\n')
      && (i < |lines| - 1 ==> r[|r| - 1] == '\n')
  {
    if v.Some? {
      RewriteIsOneLine(lines[i], v.value);
    }
  }

  /** The reference reading of a line-shaped list whose selected lines
      hold a `=`, with values free of newlines, is line-shaped. */
  lemma ReferenceLineShape(lines: seq<string>, length: string, thickness: string, width: string)
    requires LineShaped(lines) && KeyLinesHaveEquals(lines)
    requires '\n' !in length && '\n' !in thickness && '\n' !in width
    ensures LineShaped(Reference(lines, length, thickness, width))
  {
    var r := Reference(lines, length, thickness, width);
    forall i | 0 <= i < |lines|
      ensures |r[i]| > 0
      ensures forall j :: 0 <= j < |r[i]| - 1 ==> r[i][j] != '\n'
      ensures i < |lines| - 1 ==> r[i][|r[i]| - 1] == '\n'
    {
      var v := AssignedValue(lines, i, length, thickness, width);
      AssignedLineHasEquals(lines, i, length, thickness, width);
      SettleIsOneLine(lines, i, v);
    }
  }

  /** When every selected line holds a `=` and no value holds a newline,
      the written lines have the shape `readlines()` gives, so the file reads
      back as the list that was written. */
  lemma InjectKeepsLineShape(lines: seq<string>, length: string, thickness: string, width: string)
    requires LineShaped(lines) && KeyLinesHaveEquals(lines)
    requires WellFormed(lines, length, thickness, width)
    requires '\n' !in length && '\n' !in thickness && '\n' !in width
    ensures var once := Inject(lines, length, thickness, width);
      LineShaped(once) && ReadLines(WriteLines(once)) == once
  {
    InjectMatchesReference(lines, length, thickness, width);
    ReferenceLineShape(lines, length, thickness, width);
    ReadLinesOfWriteLines(Reference(lines, length, thickness, width));
  }

  /** Reading the written command file back and injecting the same three
      values again writes the same text. */
  lemma WrittenFileIdempotent(lines: seq<string>, length: string, thickness: string, width: string)
    requires LineShaped(lines) && KeyLinesHaveEquals(lines)
    requires WellFormed(lines, length, thickness, width)
    requires '\n' !in length && '\n' !in thickness && '\n' !in width
    ensures var once := Inject(lines, length, thickness, width);
      var reread := ReadLines(WriteLines(once));
      Inject(reread, length, thickness, width) == once
  {
    InjectKeepsLineShape(lines, length, thickness, width);
    InjectIdempotent(lines, length, thickness, width);
  }

  /** Without a `=` the whole line is kept in front of the new value. */
  lemma RewriteWithoutEquals(line: string, value: string)
    requires '=' !in line
    ensures Rewrite(line, value) == line + "= " + value + "\n"
  {
    var p := RewrittenLineFormat(line, value);
    assert line[..p] == line;
  }

  lemma WriteLinesPair(a: string, b: string)
    ensures WriteLines([a]) == a && WriteLines([a, b]) == a + b
  {
    assert [a][1..] == [] && [a, b][1..] == [b];
    assert WriteLines([b]) == b + WriteLines([]);
  }

  /** Without a `=`, a rewrite appends the line `Rewrite([], value)`, which
      is `= value` and a newline. */
  lemma RewriteAppends(line: string, value: string)
    requires '=' !in line && '\n' !in value
    ensures var extra := Rewrite([], value);
      && extra == "= " + value + "\n"
      && Rewrite(line, value) == line + extra
      && |extra| > 0 && extra[|extra| - 1] == '\n'
      && forall j :: 0 <= j < |extra| - 1 ==> extra[j] != '\n'
  {
    RewriteWithoutEquals(line, value);
    RewriteWithoutEquals([], value);
    assert [] + "= " + value + "\n" == "= " + value + "\n";
    ValueLineShape(value);
  }

  lemma ValueLineShape(value: string)
    requires '\n' !in value
    ensures var t := "= " + value + "\n";
      t[|t| - 1] == '\n' && forall j :: 0 <= j < |t| - 1 ==> t[j] != '\n'
  {
    var t := "= " + value + "\n";
    forall j | 0 <= j < |t| - 1
      ensures t[j] != '\n'
    {
      if j >= 2 {
        assert t[j] == value[j - 2];
      }
    }
  }

  /** A key line without `=` ends in a newline that stays in the middle of
      its rewrite: the text reads back as the key line and the appended
      line. */
  lemma SplitAppendedLine(line: string, value: string)
    requires |line| > 0 && line[|line| - 1] == '\n' && LineShaped([line])
    requires '=' !in line && '\n' !in value
    ensures ReadLines(WriteLines([Rewrite(line, value)])) == [line, Rewrite([], value)]
  {
    var extra := Rewrite([], value);
    RewriteAppends(line, value);
    WriteLinesPair(Rewrite(line, value), extra);
    WriteLinesPair(line, extra);
    LineShapedCons(line, [extra]);
    ReadLinesOfWriteLines([line, extra]);
  }

  /** A key line without `=` keeps its newline in front of the appended
      `= value`, so the written file reads back with one more line, and a
      second injection writes a longer file. */
  lemma KeyLineWithoutEqualsGrows(line: string, length: string, thickness: string, width: string)
    requires |line| > 0 && line[|line| - 1] == '\n' && LineShaped([line]) && '=' !in line
    requires Contains(line, ThicknessKey) && !Contains(line, LengthKey) && !Contains(line, WidthKey)
    requires WellFormed([line], length, thickness, width)
    requires '\n' !in thickness
    ensures var extra := Rewrite([], thickness);
      var once := Inject([line], length, thickness, width);
      var reread := ReadLines(WriteLines(once));
      && extra == "= " + thickness + "\n"
      && once == [line + extra]
      && reread == [line, extra]
      && Inject(reread, length, thickness, width) == [line + extra, extra]
      && |WriteLines(Inject(reread, length, thickness, width))| > |WriteLines(once)|
  {
    var extra := Rewrite([], thickness);
    RewriteAppends(line, thickness);
    InjectOneKeyLine(line, length, thickness, width);
    SplitAppendedLine(line, thickness);
    InjectKeyLineAndExtra(line, extra, length, thickness, width);
    WriteLinesPair(line + extra, extra);
  }

  /** The passes over the single key line. */
  lemma InjectOneKeyLine(line: string, length: string, thickness: string, width: string)
    requires '=' !in line
    requires Contains(line, ThicknessKey) && !Contains(line, LengthKey) && !Contains(line, WidthKey)
    requires WellFormed([line], length, thickness, width)
    ensures Inject([line], length, thickness, width) == [Rewrite(line, thickness)]
  {
    KeysAreAtomic();
    assert BeforeFirst(line, '=') == line;
    ContainsRewrite(line, thickness, LengthKey);
    ContainsRewrite(line, thickness, WidthKey);
    assert FirstLine([line], ThicknessKey) == Some(0);
    var s1 := [Rewrite(line, thickness)];
    assert Pass([line], ThicknessKey, thickness) == s1;
    assert Pass(s1, LengthKey, length) == s1;
  }

  /** The passes over the key line followed by the appended line: the key
      line is rewritten again and the appended line holds no key. */
  lemma InjectKeyLineAndExtra(line: string, extra: string, length: string, thickness: string, width: string)
    requires '=' !in line && extra == Rewrite([], thickness)
    requires Contains(line, ThicknessKey) && !Contains(line, LengthKey) && !Contains(line, WidthKey)
    requires WellFormed([line], length, thickness, width)
    ensures Inject([line, extra], length, thickness, width) == [Rewrite(line, thickness), extra]
  {
    KeysAreAtomic();
    assert BeforeFirst(line, '=') == line;
    assert BeforeFirst([], '=') == [];
    NotContainsEmpty(LengthKey);
    NotContainsEmpty(WidthKey);
    ContainsRewrite(line, thickness, LengthKey);
    ContainsRewrite(line, thickness, WidthKey);
    ContainsRewrite([], thickness, LengthKey);
    ContainsRewrite([], thickness, WidthKey);
    var s0 := [line, extra];
    assert IsFirstMatch(s0, ThicknessKey, 0);
    var s1 := Pass(s0, ThicknessKey, thickness);
    assert !IsFirstMatch(s0, ThicknessKey, 1);
    assert s1 == [Rewrite(line, thickness), extra];
    assert !Contains(s1[0], LengthKey) && !Contains(s1[1], LengthKey);
    assert Pass(s1, LengthKey, length) == s1;
    assert !Contains(s1[0], WidthKey) && !Contains(s1[1], WidthKey);
  }
}
