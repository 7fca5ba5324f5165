/** The two path helpers of the reference-counting loader, both built on the
    regular expression `/\w*.js/`: a run of word characters, then ANY one
    character other than a line terminator (the dot is not escaped), then
    `js`. `exec` returns the leftmost match, and at that start the greedy `\w*`
    takes as many word characters as still let `.js` follow. */
module ModulePaths {
  import opened JsValues
  import opened Strings

  /** `\w` */
  predicate IsWordChar(c: char)
  {
    ('a' <= c <= 'z') || ('A' <= c <= 'Z') || ('0' <= c <= '9') || c == '_'
  }

  /** The characters `.` does not match. */
  predicate IsLineTerminator(c: char)
  {
    c == '\n' || c == '\r' || c == '\U{2028}' || c == '\U{2029}'
  }

  /** `/\w*.js/` matches `s` from position `p` with `k` word characters. */
  predicate MatchAt(s: string, p: nat, k: nat)
  {
    p + k + 3 <= |s| &&
    (forall j :: p <= j < p + k ==> IsWordChar(s[j])) &&
    !IsLineTerminator(s[p + k]) && s[p + k + 1] == 'j' && s[p + k + 2] == 's'
  }

  /** The number of word characters from position `p` on. */
  function WordRun(s: string, p: nat): (n: nat)
    requires p <= |s|
    ensures p + n <= |s|
    decreases |s| - p
  {
    if p < |s| && IsWordChar(s[p]) then 1 + WordRun(s, p + 1) else 0
  }

  /** The run is maximal: word characters up to its end, and none there. */
  lemma {:induction false} WordRunIsMaximal(s: string, p: nat)
    requires p <= |s|
    ensures forall j :: p <= j < p + WordRun(s, p) ==> IsWordChar(s[j])
    ensures p + WordRun(s, p) == |s| || !IsWordChar(s[p + WordRun(s, p)])
    decreases |s| - p
  {
    if p < |s| && IsWordChar(s[p]) {
      WordRunIsMaximal(s, p + 1);
    }
  }

  /** The backtracking of `\w*` at start `p`: the largest width not above `k`
      after which `.js` follows. */
  function LongestAt(s: string, p: nat, k: nat): (r: Option<nat>)
    requires p + k <= |s|
    ensures r.Some? ==> r.value <= k && p + r.value + 3 <= |s|
    decreases k
  {
    if MatchAt(s, p, k) then Some(k)
    else if k == 0 then None
    else LongestAt(s, p, k - 1)
  }

  lemma {:induction false} LongestAtIsLongest(s: string, p: nat, k: nat)
    requires p + k <= |s|
    ensures var r := LongestAt(s, p, k);
            (r.Some? ==> r.value <= k && MatchAt(s, p, r.value) &&
                         forall k' :: r.value < k' <= k ==> !MatchAt(s, p, k')) &&
            (r.None? ==> forall k': nat :: k' <= k ==> !MatchAt(s, p, k'))
    decreases k
  {
    if !MatchAt(s, p, k) && k > 0 {
      LongestAtIsLongest(s, p, k - 1);
    }
  }

  /** The leftmost match at or after `p`, as its start and its number of word
      characters; `None` when there is none. */
  function FirstMatchFrom(s: string, p: nat): (r: Option<(nat, nat)>)
    requires p <= |s|
    ensures r.Some? ==> p <= r.value.0 && r.value.0 + r.value.1 + 3 <= |s|
    decreases |s| - p
  {
    if p == |s| then None
    else
      match LongestAt(s, p, WordRun(s, p))
      case Some(k) => Some((p, k))
      case None => FirstMatchFrom(s, p + 1)
  }

  /** What `exec` returns: the leftmost start, and there the greedy width. */
  lemma {:induction false} FirstMatchIsLeftmostLongest(s: string, p: nat)
    requires p <= |s|
    ensures var r := FirstMatchFrom(s, p);
            (r.Some? ==> p <= r.value.0 && MatchAt(s, r.value.0, r.value.1) &&
                         (forall q, k :: p <= q < r.value.0 ==> !MatchAt(s, q, k)) &&
                         (forall k :: k > r.value.1 ==> !MatchAt(s, r.value.0, k))) &&
            (r.None? ==> forall q, k :: p <= q ==> !MatchAt(s, q, k))
    decreases |s| - p
  {
    if p < |s| {
      var w := WordRun(s, p);
      LongestAtIsLongest(s, p, w);
      NoMatchBeyondRun(s, p);
      if LongestAt(s, p, w).None? {
        FirstMatchIsLeftmostLongest(s, p + 1);
      }
    }
  }

  /** `\w*` cannot cover more than the run of word characters. */
  lemma NoMatchBeyondRun(s: string, p: nat)
    requires p <= |s|
    ensures forall k :: k > WordRun(s, p) ==> !MatchAt(s, p, k)
  {
    var w := WordRun(s, p);
    WordRunIsMaximal(s, p);
    forall k | k > w ensures !MatchAt(s, p, k) {
      if p + k + 3 <= |s| {
        assert !IsWordChar(s[p + w]);
      }
    }
  }

  /** `reg.exec(s)` is not null. */
  predicate Matches(s: string)
  {
    FirstMatchFrom(s, 0).Some?
  }

  /** The pattern occurs exactly when some `js` is preceded by a character
      that is not a line terminator: `\w*` may match nothing. */
  lemma MatchesExactly(s: string)
    ensures Matches(s) <==> exists i :: 1 <= i && i + 2 <= |s| && !IsLineTerminator(s[i - 1]) && s[i] == 'j' && s[i + 1] == 's'
  {
    FirstMatchIsLeftmostLongest(s, 0);
    if Matches(s) {
      var m := FirstMatchFrom(s, 0).value;
      var i := m.0 + m.1 + 1;
      assert !IsLineTerminator(s[i - 1]) && s[i] == 'j' && s[i + 1] == 's';
    }
    if exists i :: 1 <= i && i + 2 <= |s| && !IsLineTerminator(s[i - 1]) && s[i] == 'j' && s[i + 1] == 's' {
      var i :| 1 <= i && i + 2 <= |s| && !IsLineTerminator(s[i - 1]) && s[i] == 'j' && s[i + 1] == 's';
      assert MatchAt(s, i - 1, 0);
    }
  }

  /** `moduleNameToModulePath(name)` */
  function ModuleNameToModulePath(name: string): string
  {
    if Matches(name) then name else "./" + name + ".js"
  }

  /** A name in which the pattern occurs is already a path; any other name
      becomes `./<name>.js`. Every path the helper produces matches the
      pattern, so applying the helper again changes nothing. */
  lemma ModulePathMatches(name: string)
    ensures Matches(name) ==> ModuleNameToModulePath(name) == name
    ensures !Matches(name) ==> ModuleNameToModulePath(name) == "./" + name + ".js"
    ensures Matches(ModuleNameToModulePath(name))
    ensures ModuleNameToModulePath(ModuleNameToModulePath(name)) == ModuleNameToModulePath(name)
  {
    var path := ModuleNameToModulePath(name);
    if !Matches(name) {
      var i := |name| + 3;
      assert path[i - 1] == '.' && path[i] == 'j' && path[i + 1] == 's';
      MatchesExactly(path);
    }
  }

  /** `modulePathToModuleName(path)`: the path itself when the pattern does
      not occur, otherwise the leftmost match up to its first dot. */
  function ModulePathToModuleName(path: string): string
  {
    match FirstMatchFrom(path, 0)
    case None => path
    case Some(m) => Split(path[m.0..m.0 + m.1 + 3], '.')[0]
  }

  /** The name taken from a matching path is the run of word characters of
      the leftmost match when the character after it is a dot, and the whole
      match otherwise. */
  lemma ModuleNameOfPath(path: string)
    ensures !Matches(path) ==> ModulePathToModuleName(path) == path
    ensures Matches(path) ==>
              var m := FirstMatchFrom(path, 0).value;
              var r := ModulePathToModuleName(path);
              '.' !in r &&
              (path[m.0 + m.1] == '.' ==> r == path[m.0..m.0 + m.1]) &&
              (path[m.0 + m.1] != '.' ==> r == path[m.0..m.0 + m.1 + 3])
  {
    FirstMatchIsLeftmostLongest(path, 0);
    if Matches(path) {
      var m := FirstMatchFrom(path, 0).value;
      NameOfMatch(path, m.0, m.1);
    }
  }

  /** The name a match at `p` with `k` word characters gives. */
  lemma NameOfMatch(path: string, p: nat, k: nat)
    requires MatchAt(path, p, k)
    ensures var r := Split(path[p..p + k + 3], '.')[0];
            '.' !in r &&
            (path[p + k] == '.' ==> r == path[p..p + k]) &&
            (path[p + k] != '.' ==> r == path[p..p + k + 3])
  {
    var w := path[p..p + k];
    assert '.' !in w by {
      forall j | 0 <= j < |w| ensures w[j] != '.' {
        assert w[j] == path[p + j] && IsWordChar(path[p + j]);
      }
    }
    var whole := path[p..p + k + 3];
    if path[p + k] == '.' {
      assert whole == w + ['.'] + "js";
      SplitAtFirstSeparator(w, '.', "js");
    } else {
      assert whole == w + [path[p + k]] + "js";
      assert '.' !in whole;
      SplitWithoutSeparator(whole, '.');
    }
  }
}
