/** `_fix_hebrew_text`, identical in both translators: six `str.replace` passes that delete a
    space written just before `.`, `,`, `:`, `;`, `!` or `?`. */
module HebrewText {
  import opened Text

  /** The reference meaning of `s.replace(" " + m, m)`: every space immediately followed by
      `m` is deleted, and nothing else changes. */
  function DropSpaceBefore(s: string, m: char): string {
    if s == [] then []
    else (if s[0] == ' ' && |s| > 1 && s[1] == m then [] else [s[0]]) + DropSpaceBefore(s[1..], m)
  }

  /** `s` without its space characters. */
  function Unspaced(s: string): string {
    if s == [] then [] else (if s[0] == ' ' then [] else [s[0]]) + Unspaced(s[1..])
  }

  /** One replace pass is exactly `DropSpaceBefore`: occurrences of `" " + m` cannot overlap
      because `m` is not a space. */
  lemma {:induction false} ReplaceIsDropSpaceBefore(s: string, m: char)
    requires m != ' '
    ensures ReplaceAll(s, [' ', m], [m]) == DropSpaceBefore(s, m)
  {
    if |s| < 2 {
      if |s| == 1 {
        assert DropSpaceBefore(s, m) == [s[0]] + DropSpaceBefore([], m);
      }
    } else if s[..2] == [' ', m] {
      ReplaceIsDropSpaceBefore(s[2..], m);
      assert s[1..][1..] == s[2..];
      assert DropSpaceBefore(s[1..], m) == [m] + DropSpaceBefore(s[2..], m);
    } else {
      ReplaceIsDropSpaceBefore(s[1..], m);
    }
  }

  /** Dropping spaces never lengthens the text and keeps every other character, in order. */
  lemma {:induction false} DropSpaceBeforeOnlyDeletesSpaces(s: string, m: char)
    ensures |DropSpaceBefore(s, m)| <= |s|
    ensures Unspaced(DropSpaceBefore(s, m)) == Unspaced(s)
  {
    if s != [] {
      DropSpaceBeforeOnlyDeletesSpaces(s[1..], m);
      var head := if s[0] == ' ' && |s| > 1 && s[1] == m then [] else [s[0]];
      UnspacedAppend(head, DropSpaceBefore(s[1..], m));
      assert Unspaced([s[0]]) == (if s[0] == ' ' then [] else [s[0]]) + Unspaced([]);
    }
  }

  lemma {:induction false} UnspacedAppend(a: string, b: string)
    ensures Unspaced(a + b) == Unspaced(a) + Unspaced(b)
  {
    if a == [] {
      assert a + b == b;
    } else {
      assert (a + b)[1..] == a[1..] + b;
      UnspacedAppend(a[1..], b);
    }
  }

  /** `_fix_hebrew_text(text)`. */
  function FixHebrewText(text: string): string {
    var t1 := ReplaceAll(text, " .", ".");
    var t2 := ReplaceAll(t1, " ,", ",");
    var t3 := ReplaceAll(t2, " :", ":");
    var t4 := ReplaceAll(t3, " ;", ";");
    var t5 := ReplaceAll(t4, " !", "!");
    ReplaceAll(t5, " ?", "?")
  }

  /** The six passes, each stated by its reference meaning. */
  lemma FixHebrewTextIsDrops(text: string)
    ensures FixHebrewText(text) ==
      DropSpaceBefore(DropSpaceBefore(DropSpaceBefore(DropSpaceBefore(DropSpaceBefore(
        DropSpaceBefore(text, '.'), ','), ':'), ';'), '!'), '?')
  {
    var t1 := DropSpaceBefore(text, '.');
    var t2 := DropSpaceBefore(t1, ',');
    var t3 := DropSpaceBefore(t2, ':');
    var t4 := DropSpaceBefore(t3, ';');
    var t5 := DropSpaceBefore(t4, '!');
    ReplaceIsDropSpaceBefore(text, '.');
    ReplaceIsDropSpaceBefore(t1, ',');
    ReplaceIsDropSpaceBefore(t2, ':');
    ReplaceIsDropSpaceBefore(t3, ';');
    ReplaceIsDropSpaceBefore(t4, '!');
    ReplaceIsDropSpaceBefore(t5, '?');
  }

  /** The fixer only deletes spaces: the result is never longer than the input, and with the
      spaces left out the two are equal. */
  lemma FixHebrewTextOnlyDeletesSpaces(text: string)
    ensures |FixHebrewText(text)| <= |text|
    ensures Unspaced(FixHebrewText(text)) == Unspaced(text)
  {
    FixHebrewTextIsDrops(text);
    var t1 := DropSpaceBefore(text, '.');
    var t2 := DropSpaceBefore(t1, ',');
    var t3 := DropSpaceBefore(t2, ':');
    var t4 := DropSpaceBefore(t3, ';');
    var t5 := DropSpaceBefore(t4, '!');
    DropSpaceBeforeOnlyDeletesSpaces(text, '.');
    DropSpaceBeforeOnlyDeletesSpaces(t1, ',');
    DropSpaceBeforeOnlyDeletesSpaces(t2, ':');
    DropSpaceBeforeOnlyDeletesSpaces(t3, ';');
    DropSpaceBeforeOnlyDeletesSpaces(t4, '!');
    DropSpaceBeforeOnlyDeletesSpaces(t5, '?');
  }

  /** Each pass is a single scan: of two spaces before a mark, one is left. */
  lemma {:induction false} SinglePassLeavesOneSpace(m: char)
    requires m != ' '
    ensures DropSpaceBefore([' ', ' ', m], m) == [' ', m]
  {
    assert [' ', ' ', m][1..] == [' ', m];
    assert [' ', m][1..] == [m];
    assert DropSpaceBefore([m], m) == [m] + DropSpaceBefore([], m);
  }
}
