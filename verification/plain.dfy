/**
 The plain-text serializer (`appendArrayToPlainText`): one line per entry,
 `key: value`, with a nested array starting on the next line and indented by
 the width of its parent's `key: ` prefix. Key widths are counted in
 characters.
 */
module Plain {

  import opened ResultTree

  function Spaces(n: nat): (s: string)
    ensures |s| == n
    ensures forall i :: 0 <= i < n ==> s[i] == ' '
  {
    if n == 0 then "" else Spaces(n - 1) + " "
  }

  /** A leaf's text, or a line break followed by the nested entries one level deeper. */
  function PlainValue(v: Value, indent: nat): string {
    match v
    case Arr(es) => "\n" + PlainEntries(es, indent)
    case _ => LeafText(v)
  }

  /** `indent` spaces, the key, ": ", the value, and a line break. */
  function PlainEntry(e: Entry, indent: nat): (s: string)
    ensures var prefix := Spaces(indent) + KeyText(e.key) + ": ";
      && |s| > |prefix| && s[..|prefix|] == prefix && s[|s| - 1] == '\n'
  {
    var key := KeyText(e.key);
    Spaces(indent) + key + ": " + PlainValue(e.val, indent + |key| + 2) + "\n"
  }

  function PlainEntries(es: seq<Entry>, indent: nat): string {
    if es == [] then "" else PlainEntry(es[0], indent) + PlainEntries(es[1..], indent)
  }

  /** `outputToPlainText`: the output array at indent 0. */
  function ToPlainText(output: seq<Entry>): string {
    PlainEntries(output, 0)
  }

  /** The text of consecutive entries is the text of each in turn. */
  lemma {:induction false} PlainEntriesAppend(a: seq<Entry>, b: seq<Entry>, indent: nat)
    ensures PlainEntries(a + b, indent) == PlainEntries(a, indent) + PlainEntries(b, indent)
  {
    if a == [] {
      assert a + b == b;
    } else {
      assert (a + b)[0] == a[0];
      assert (a + b)[1..] == a[1..] + b;
      PlainEntriesAppend(a[1..], b, indent);
    }
  }

  /** Only the empty array prints nothing. */
  lemma {:induction false} PlainEntriesEmpty(es: seq<Entry>, indent: nat)
    ensures PlainEntries(es, indent) == "" <==> es == []
  {
    if es != [] {
      var first := PlainEntry(es[0], indent);
      assert |first| > 0;
    }
  }

  /**
   Plain text only sees what `Erase` keeps: two trees with the same keys,
   nesting and leaf texts print the same.
   */
  lemma {:induction false} PlainOfErase(v: Value, indent: nat)
    ensures PlainValue(Erase(v), indent) == PlainValue(v, indent)
    decreases v, 2
  {
    match v
    case Arr(es) => PlainEntriesOfErase(es, indent);
    case _ =>
  }

  lemma {:induction false} PlainEntriesOfErase(es: seq<Entry>, indent: nat)
    ensures PlainEntries(EraseEntries(es), indent) == PlainEntries(es, indent)
    decreases es, 1
  {
    if es != [] {
      PlainEntryOfErase(es[0], indent);
      PlainEntriesOfErase(es[1..], indent);
    }
  }

  lemma {:induction false} PlainEntryOfErase(e: Entry, indent: nat)
    ensures PlainEntry(EraseEntry(e), indent) == PlainEntry(e, indent)
    decreases e, 3
  {
    PlainOfErase(e.val, indent + |KeyText(e.key)| + 2);
  }

  // ---------------------------------------------------------------------------
  // Indentation
  // ---------------------------------------------------------------------------

  /** Position `i` starts a non-empty line of `s`. */
  predicate LineStart(s: string, i: int) {
    0 <= i < |s| && (i == 0 || s[i - 1] == '\n') && s[i] != '\n'
  }

  /** Every non-empty line of `s` starts with at least `n` spaces. */
  predicate Indented(s: string, n: nat) {
    forall i :: 0 <= i < |s| && LineStart(s, i) ==> i + n <= |s| && s[i..i + n] == Spaces(n)
  }

  /** No key and no leaf text in the tree holds a line break. */
  predicate OneLineLeaves(v: Value)
    decreases v, 2
  {
    match v
    case Arr(es) => OneLineEntries(es)
    case _ => '\n' !in LeafText(v)
  }

  predicate OneLineEntries(es: seq<Entry>)
    decreases es, 1
  {
    es == [] || (OneLineEntry(es[0]) && OneLineEntries(es[1..]))
  }

  predicate OneLineEntry(e: Entry)
    decreases e, 3
  {
    '\n' !in KeyText(e.key) && OneLineLeaves(e.val)
  }

  lemma IndentedAppend(a: string, b: string, n: nat)
    requires Indented(a, n) && Indented(b, n)
    ensures Indented(a + b, n)
  {
    var s := a + b;
    forall i | 0 <= i < |s| && LineStart(s, i) ensures i + n <= |s| && s[i..i + n] == Spaces(n) {
      if i < |a| {
        assert LineStart(a, i);
        assert s[i..i + n] == a[i..i + n];
      } else {
        assert LineStart(b, i - |a|);
        assert s[i..i + n] == b[i - |a|..i - |a| + n];
      }
    }
  }

  lemma IndentedWeaken(s: string, m: nat, n: nat)
    requires Indented(s, m) && n <= m
    ensures Indented(s, n)
  {
    forall i | 0 <= i < |s| && LineStart(s, i) ensures i + n <= |s| && s[i..i + n] == Spaces(n) {
      assert s[i..i + n] == s[i..i + m][..n];
    }
  }

  /** A line of text after `n` spaces, ended by a break, is indented by `n`. */
  lemma IndentedLine(n: nat, text: string)
    requires '\n' !in text
    ensures Indented(Spaces(n) + text + "\n", n)
  {
    var s := Spaces(n) + text + "\n";
    assert forall k :: 0 <= k < |s| - 1 ==> s[k] != '\n' by {
      forall k | 0 <= k < |s| - 1 ensures s[k] != '\n' {
        if k < n {
          assert s[k] == Spaces(n)[k];
        } else {
          assert s[k] == text[k - n];
        }
      }
    }
    forall i | 0 <= i < |s| && LineStart(s, i) ensures i + n <= |s| && s[i..i + n] == Spaces(n) {
      if i > 0 {
        assert false;
      }
      assert s[..n] == Spaces(n);
    }
  }

  /** A leaf entry's text: one line. */
  lemma LeafLine(n: nat, prefix: string, text: string)
    requires '\n' !in prefix && '\n' !in text
    ensures var s := Spaces(n) + prefix + text + "\n";
      Indented(s, n) && '\n' !in s[..|s| - 1]
  {
    var s := Spaces(n) + prefix + text + "\n";
    assert s == Spaces(n) + (prefix + text) + "\n";
    IndentedLine(n, prefix + text);
    assert s[..|s| - 1] == Spaces(n) + (prefix + text);
    assert forall k :: 0 <= k < n ==> Spaces(n)[k] != '\n';
  }

  /** A nested entry's text: the prefix line, then the nested lines indented by the prefix's width. */
  lemma NestedLines(n: nat, prefix: string, nested: string)
    requires '\n' !in prefix
    requires Indented(nested, n + |prefix|)
    ensures var s := Spaces(n) + prefix + ("\n" + nested) + "\n";
      var head := n + |prefix|;
      && Indented(s, n)
      && head < |s| && s[head] == '\n' && Indented(s[head + 1..], head)
  {
    var head := n + |prefix|;
    var s := Spaces(n) + prefix + ("\n" + nested) + "\n";
    assert s == (Spaces(n) + prefix + "\n") + (nested + "\n");
    IndentedLine(n, prefix);
    assert Indented("\n", head);
    IndentedAppend(nested, "\n", head);
    assert s[head + 1..] == nested + "\n";
    IndentedWeaken(nested + "\n", head, n);
    IndentedAppend(Spaces(n) + prefix + "\n", nested + "\n", n);
  }

  /**
   With no line break inside keys and leaf texts, an entry printed at
   indent `n` keeps every line at least `n` spaces deep. A leaf fills one
   line; a nested array starts on the next line, and each of its lines is
   indented past the parent's `key: ` prefix.
   */
  lemma {:induction false} PlainEntryIndented(e: Entry, n: nat)
    requires OneLineEntry(e)
    ensures var s := PlainEntry(e, n);
      var head := n + |KeyText(e.key)| + 2;
      && Indented(s, n)
      && (!e.val.Arr? ==> '\n' !in s[..|s| - 1])
      && (e.val.Arr? ==> head < |s| && s[head] == '\n' && Indented(s[head + 1..], head))
    decreases e, 3
  {
    var prefix := KeyText(e.key) + ": ";
    var head := n + |prefix|;
    assert PlainEntry(e, n) == Spaces(n) + prefix + PlainValue(e.val, head) + "\n";
    if e.val.Arr? {
      PlainEntriesIndented(e.val.entries, head);
      NestedLines(n, prefix, PlainEntries(e.val.entries, head));
    } else {
      LeafLine(n, prefix, LeafText(e.val));
    }
  }

  /** The same for consecutive entries at one indent. */
  lemma {:induction false} PlainEntriesIndented(es: seq<Entry>, n: nat)
    requires OneLineEntries(es)
    ensures Indented(PlainEntries(es, n), n)
    decreases es, 1
  {
    if es != [] {
      PlainEntryIndented(es[0], n);
      PlainEntriesIndented(es[1..], n);
      IndentedAppend(PlainEntry(es[0], n), PlainEntries(es[1..], n), n);
    }
  }

  /**
   A line break inside a value is printed as is: the text after it starts a
   line with no indent, so "t" holding "x\ny" at indent 3 breaks the rule.
   */
  lemma LineBreakBreaksIndent()
    ensures !Indented(PlainEntry(Entry(StrKey("t"), Str("x\ny")), 3), 3)
  {
    var s := PlainEntry(Entry(StrKey("t"), Str("x\ny")), 3);
    assert Spaces(3) == "   " by {
      assert Spaces(1) == " ";
      assert Spaces(2) == "  ";
    }
    assert PlainValue(Str("x\ny"), 6) == "x\ny";
    assert s == "   t: x\ny\n";
    assert LineStart(s, 8);
  }
}
