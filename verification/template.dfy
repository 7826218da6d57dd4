/**
 * The command template: where the selection goes, how the template is
 * derived from the command-line argument, and how the selection is put
 * into it.
 */
module Template {
  import opened Strings
  import Shell

  /** The two characters `%s` start at index `i` of `t`. */
  predicate PlaceholderAt(t: string, i: int) {
    0 <= i && i + 1 < |t| && t[i] == '%' && t[i + 1] == 's'
  }

  function FindFrom(t: string, from: nat): (r: Option<nat>)
    requires from <= |t|
    ensures r.Some? ==> from <= r.value && PlaceholderAt(t, r.value)
    ensures r.Some? ==> forall j :: from <= j < r.value ==> !PlaceholderAt(t, j)
    ensures r.None? ==> forall j :: from <= j ==> !PlaceholderAt(t, j)
    decreases |t| - from
  {
    if from + 1 >= |t| then None
    else if t[from] == '%' && t[from + 1] == 's' then Some(from)
    else FindFrom(t, from + 1)
  }

  /** strstr(t, "%s"): the first place the placeholder occurs, if any. */
  function FindPlaceholder(t: string): (r: Option<nat>)
    ensures r.Some? ==> PlaceholderAt(t, r.value)
    ensures r.Some? ==> forall j :: 0 <= j < r.value ==> !PlaceholderAt(t, j)
    ensures r.None? ==> forall j :: !PlaceholderAt(t, j)
  {
    FindFrom(t, 0)
  }

  /** What the program appends to an argument that has no placeholder. */
  const Appended: string := " '%s'"

  /** A text with no placeholder keeps none when a blank and a quote are added. */
  lemma NoPlaceholderAfterBlank(arg: string)
    requires FindPlaceholder(arg).None?
    ensures FindPlaceholder(arg + " '").None?
  {
    var t := arg + " '";
    forall j | 0 <= j
      ensures !PlaceholderAt(t, j)
    {
      if j + 1 < |arg| {
        assert !PlaceholderAt(arg, j);
      }
    }
  }

  /** The first placeholder of `p + "%s" + q` is the one just after `p` when `p` has none. */
  lemma FirstPlaceholderAfter(p: string, q: string)
    requires FindPlaceholder(p).None?
    ensures FindPlaceholder(p + "%s" + q) == Some(|p|)
  {
    var t := p + "%s" + q;
    assert PlaceholderAt(t, |p|);
    forall j | 0 <= j < |p|
      ensures !PlaceholderAt(t, j)
    {
      if j + 1 < |p| {
        assert !PlaceholderAt(p, j);
      }
    }
  }

  /**
   * The template the program runs: the argument itself when it holds a
   * placeholder, otherwise the argument with a quoted placeholder added.
   */
  function EffectiveTemplate(arg: string): (t: string)
    ensures FindPlaceholder(t).Some?
    ensures FindPlaceholder(arg).Some? ==> t == arg
    ensures FindPlaceholder(arg).None? ==>
      t == Concat(arg, Appended) && FindPlaceholder(t) == Some(|arg| + 2)
  {
    if FindPlaceholder(arg).Some? then arg
    else
      NoPlaceholderAfterBlank(arg);
      FirstPlaceholderAfter(arg + " '", "'");
      assert arg + " '" + "%s" + "'" == Concat(arg, Appended);
      Concat(arg, Appended)
  }

  /**
   * sprintf(command, template, selection) for a template whose only
   * directive is `%s`: the selection replaces the first placeholder.
   * The result, with its terminator, fits the buffer of
   * strlen(template) + strlen(selection) + 1 characters set aside for it.
   */
  function Substitute(t: string, selection: string): (command: string)
    ensures |command| + 1 <= |t| + |selection| + 1
    ensures FindPlaceholder(t).None? ==> command == t
  {
    match FindPlaceholder(t)
    case None => t
    case Some(i) => t[..i] + selection + t[i + 2..]
  }

  /** Substitution puts the selection exactly where the first placeholder was. */
  lemma SubstituteSplit(p: string, q: string, selection: string)
    requires FindPlaceholder(p).None?
    ensures Substitute(p + "%s" + q, selection) == p + selection + q
  {
    var t := p + "%s" + q;
    FirstPlaceholderAfter(p, q);
    assert t[..|p|] == p;
    assert t[|p| + 2..] == q;
  }

  /**
   * For an argument without a placeholder, the command is the argument
   * followed by the selection between single quotes, the selection
   * inserted verbatim.
   */
  lemma CommandFromBareArgument(arg: string, selection: string)
    requires FindPlaceholder(arg).None?
    ensures Substitute(EffectiveTemplate(arg), selection) == arg + " " + ("'" + selection + "'")
  {
    NoPlaceholderAfterBlank(arg);
    assert EffectiveTemplate(arg) == (arg + " '") + "%s" + "'";
    SubstituteSplit(arg + " '", "'", selection);
  }

  /**
   * As the program builds it, the command for a bare argument does not
   * pass a selection holding a single quote as one argument: the quoted
   * word ends early, at a command separator the selection brought in.
   */
  lemma BareArgumentSplitsSelection(arg: string)
    requires FindPlaceholder(arg).None?
    ensures var command := Substitute(EffectiveTemplate(arg), "';id;'");
      command == arg + " " + ("'" + "';id;'" + "'") &&
      Shell.ReadWord(command[|arg| + 1..], false) == Some(Shell.Word("", 2))
  {
    CommandFromBareArgument(arg, "';id;'");
    var command := Substitute(EffectiveTemplate(arg), "';id;'");
    assert command[|arg| + 1..] == "'" + "';id;'" + "'";
    Shell.BareQuotesSplitWord();
  }

  /**
   * The command the corrected program runs. A template that holds its own
   * placeholder is substituted as the user wrote it, since only the user
   * knows how the placeholder is quoted there. A bare argument gets the
   * selection appended as one single-quoted shell word, escaped, so that
   * the command's last word is exactly the selection whatever it holds.
   * That word is read from a fresh start after the blank, which is how the
   * shell reads it when the argument itself ends outside a quote and not
   * on an unescaped backslash.
   */
  function SafeCommand(arg: string, selection: string): (command: string)
    ensures FindPlaceholder(arg).Some? ==> command == Substitute(EffectiveTemplate(arg), selection)
    ensures FindPlaceholder(arg).None? ==>
      && |command| > |arg|
      && command[..|arg| + 1] == arg + " "
      && Shell.ReadWord(command[|arg| + 1..], false) == Some(Shell.Word(selection, |command| - |arg| - 1))
  {
    if FindPlaceholder(arg).Some? then Substitute(arg, selection)
    else
      var command := arg + " " + Shell.Quote(selection);
      assert command[|arg| + 1..] == Shell.Quote(selection) + [];
      Shell.QuoteReadsBack(selection, []);
      command
  }

  /** With its own placeholder, the corrected command puts the selection exactly there. */
  lemma SafeCommandSplit(p: string, q: string, selection: string)
    requires FindPlaceholder(p).None?
    ensures SafeCommand(p + "%s" + q, selection) == p + selection + q
  {
    FirstPlaceholderAfter(p, q);
    SubstituteSplit(p, q, selection);
  }

  /**
   * On a selection without single quotes the corrected command is the
   * command the program builds, for every argument.
   */
  lemma SafeCommandAgrees(arg: string, selection: string)
    requires '\'' !in selection
    ensures SafeCommand(arg, selection) == Substitute(EffectiveTemplate(arg), selection)
  {
    if FindPlaceholder(arg).None? {
      Shell.EscapeKeepsQuoteFree(selection);
      CommandFromBareArgument(arg, selection);
    }
  }
}
