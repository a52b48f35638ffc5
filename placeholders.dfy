/** The only translation the PostgreSQL adapters make between the MySQL and the PostgreSQL
    dialects: every `?` placeholder becomes `$1`, `$2`, ... from left to right, by
    `query.replace(/\?/g, () => `$${paramIndex++}`)` with a counter starting at 1.
    The same code appears in `db-adapter.js`, `db-postgres.js` and `fix-db-adapter.js`. */
module Placeholders {
  import Seqs
  import Strings
  import PgPool

  /** The PostgreSQL parameter reference `$k`. */
  function Param(k: nat): (r: string)
    ensures |r| >= 2 && r[0] == '$'
  {
    "$" + Strings.NatToString(k)
  }

  lemma ParamChars(k: nat)
    ensures '?' !in Param(k)
    ensures Seqs.Count(Param(k), '$') == 1
  {
    var digits := Strings.NatToString(k);
    assert Param(k) == ['$'] + digits;
    Seqs.CountAppend(['$'], digits, '$');
    assert '$' !in digits;
    Seqs.CountZero(digits, '$');
    assert ['$'][1..] == [];
  }

  /** The rewrite of `q` with the counter starting at `k`: each `?` in turn is replaced by
      the counter's current value, which then goes up by one. */
  function Numbered(q: string, k: nat): string
  {
    if q == [] then []
    else if q[0] == '?' then Param(k) + Numbered(q[1..], k + 1)
    else [q[0]] + Numbered(q[1..], k)
  }

  /** No `?` survives the rewrite, and a query without `?` comes back unchanged. */
  lemma {:induction false} NumberedPlaceholders(q: string, k: nat)
    ensures '?' !in Numbered(q, k)
    ensures '?' !in q ==> Numbered(q, k) == q
  {
    if q != [] {
      if q[0] == '?' {
        NumberedPlaceholders(q[1..], k + 1);
        ParamChars(k);
      } else {
        NumberedPlaceholders(q[1..], k);
      }
    }
  }

  /** Unfolding the rewrite at a first character. */
  lemma NumberedCons(c: char, rest: string, k: nat)
    ensures Numbered([c] + rest, k) == (if c == '?' then Param(k) else [c]) + Numbered(rest, if c == '?' then k + 1 else k)
  {
    assert ([c] + rest)[1..] == rest;
  }

  /** Text without `?` is copied as it is, and the counter is left where it was. */
  lemma {:induction false} NumberedPrefix(a: string, b: string, k: nat)
    requires '?' !in a
    ensures Numbered(a + b, k) == a + Numbered(b, k)
  {
    if a != [] {
      assert a[0] != '?' && '?' !in a[1..] by {
        assert a[0] in a;
        assert forall c :: c in a[1..] ==> c in a;
      }
      assert a + b == [a[0]] + (a[1..] + b);
      NumberedCons(a[0], a[1..] + b, k);
      NumberedPrefix(a[1..], b, k);
      assert a == [a[0]] + a[1..];
    } else {
      assert a + b == b;
    }
  }

  /** The list `?, ?, ..., ?` of `n` placeholders, as written in a MySQL statement. */
  function Marks(n: nat): string
    requires n >= 1
  {
    if n == 1 then "?" else "?, " + Marks(n - 1)
  }

  /** The list `$k, $k+1, ..., $k+n-1`, as written in a PostgreSQL statement. */
  function Refs(k: nat, n: nat): string
    requires n >= 1
    decreases n
  {
    if n == 1 then Param(k) else Param(k) + ", " + Refs(k + 1, n - 1)
  }

  /** A list of `n` placeholders numbered from `k` becomes `$k, ..., $k+n-1`, and the
      counter moves on by `n`. */
  lemma {:induction false} NumberedMarks(n: nat, k: nat, rest: string)
    requires n >= 1
    ensures Numbered(Marks(n) + rest, k) == Refs(k, n) + Numbered(rest, k + n)
  {
    if n == 1 {
      assert Marks(n) + rest == ['?'] + rest;
      NumberedCons('?', rest, k);
    } else {
      NumberedMarks(n - 1, k + 1, rest);
      MarksStep(n, k, rest);
    }
  }

  /** One placeholder and its separator. */
  lemma MarksStep(n: nat, k: nat, rest: string)
    requires n > 1
    ensures Numbered(Marks(n) + rest, k) == Param(k) + ", " + Numbered(Marks(n - 1) + rest, k + 1)
  {
    var tail := Marks(n - 1) + rest;
    assert Marks(n) + rest == ['?'] + (", " + tail);
    NumberedCons('?', ", " + tail, k);
    CommaHasNoMark();
    NumberedPrefix(", ", tail, k + 1);
  }

  lemma CommaHasNoMark()
    ensures '?' !in ", "
  {
  }

  /** An independent reading of the rewrite: cut the query at its `?`s and glue the pieces
      back together with `$k`, `$k+1`, ... between consecutive pieces. */
  function Splice(pieces: seq<string>, k: nat): string
    requires |pieces| >= 1
  {
    if |pieces| == 1 then pieces[0] else pieces[0] + Param(k) + Splice(pieces[1..], k + 1)
  }

  /** The rewrite keeps the text between placeholders verbatim and in order, and the i-th `?`
      from the left (counting from 0) becomes `$(k+i)`. */
  lemma {:induction false} NumberedIsSplice(q: string, k: nat)
    ensures Numbered(q, k) == Splice(Strings.SplitOn(q, '?'), k)
  {
    if q != [] {
      var rest := Strings.SplitOn(q[1..], '?');
      if q[0] == '?' {
        NumberedIsSplice(q[1..], k + 1);
        assert Strings.SplitOn(q, '?') == [[]] + rest;
        SpliceEmptyFirst(rest, k);
      } else {
        NumberedIsSplice(q[1..], k);
        assert Strings.SplitOn(q, '?') == [[q[0]] + rest[0]] + rest[1..];
        SpliceExtendFirst(q[0], rest, k);
      }
    }
  }

  lemma SpliceEmptyFirst(rest: seq<string>, k: nat)
    requires |rest| >= 1
    ensures Splice([[]] + rest, k) == Param(k) + Splice(rest, k + 1)
  {
    var pieces := [[]] + rest;
    assert pieces[1..] == rest;
  }

  lemma SpliceExtendFirst(c: char, rest: seq<string>, k: nat)
    requires |rest| >= 1
    ensures Splice([[c] + rest[0]] + rest[1..], k) == [c] + Splice(rest, k)
  {
    var pieces := [[c] + rest[0]] + rest[1..];
    if |rest| > 1 {
      assert pieces[1..] == rest[1..];
      assert ([c] + rest[0]) + Param(k) + Splice(rest[1..], k + 1) == [c] + (rest[0] + Param(k) + Splice(rest[1..], k + 1));
    }
  }

  /** One `$` is produced per `?`: the number of parameter references in the output is the
      number of `?` in the input plus the `$` signs already there. */
  lemma {:induction false} NumberedDollars(q: string, k: nat)
    ensures Seqs.Count(Numbered(q, k), '$') == Seqs.Count(q, '$') + Seqs.Count(q, '?')
  {
    if q != [] {
      if q[0] == '?' {
        NumberedDollars(q[1..], k + 1);
        ParamChars(k);
        Seqs.CountAppend(Param(k), Numbered(q[1..], k + 1), '$');
      } else {
        NumberedDollars(q[1..], k);
        Seqs.CountAppend([q[0]], Numbered(q[1..], k), '$');
      }
    }
  }

  /** The guard `params && params.length > 0 && query.includes('?')`, then the rewrite
      numbered from 1; otherwise the query is used as it is. */
  function PrepareQuery(query: string, paramCount: nat): (r: string)
    ensures paramCount == 0 || '?' !in query ==> r == query
    ensures paramCount > 0 ==> '?' !in r
  {
    NumberedPlaceholders(query, 1);
    if paramCount > 0 && '?' in query then Numbered(query, 1) else query
  }

  /** One step of the scan: the character at `i` is emitted, rewritten if it is a `?`. */
  lemma RewriteStep(query: string, i: nat, out: string, k: nat)
    requires i < |query|
    ensures query[i] == '?' ==> out + Numbered(query[i..], k) == (out + Param(k)) + Numbered(query[i + 1..], k + 1)
    ensures query[i] != '?' ==> out + Numbered(query[i..], k) == (out + [query[i]]) + Numbered(query[i + 1..], k)
  {
    assert [query[i]] + query[i + 1..] == query[i..];
    NumberedCons(query[i], query[i + 1..], k);
  }

  /** The guarded rewrite, as the left-to-right scan with a counter that the adapters run. */
  method Rewrite(query: string, params: seq<PgPool.SqlValue>) returns (modifiedQuery: string)
    ensures modifiedQuery == PrepareQuery(query, |params|)
  {
    modifiedQuery := query;
    if |params| > 0 && '?' in query {
      var paramIndex: nat := 1;
      var i := 0;
      modifiedQuery := [];
      while i < |query|
        invariant 0 <= i <= |query|
        invariant modifiedQuery + Numbered(query[i..], paramIndex) == Numbered(query, 1)
      {
        RewriteStep(query, i, modifiedQuery, paramIndex);
        if query[i] == '?' {
          modifiedQuery := modifiedQuery + Param(paramIndex);
          paramIndex := paramIndex + 1;
        } else {
          modifiedQuery := modifiedQuery + [query[i]];
        }
        i := i + 1;
      }
    }
  }
}
