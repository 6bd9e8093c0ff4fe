/**
 Conversion between tokens and vesting shares.

 The price of a share is the vesting fund divided by the number of shares.  Conversions round
 down, so whoever converts may lose a fraction to those who hold shares, and never the reverse.
 */
module Vesting {
  import opened Arithmetic

  /** `tokens * get_vesting_share_price()`; a fixed price applies while nothing is vested. */
  function SharesFor(fund: int, total: int, tokens: int): int
  {
    if fund == 0 || total == 0 then tokens * 1000000 / 1000 else tokens * total / fund
  }

  /** `shares * get_vesting_share_price()`. */
  function TokensFor(fund: int, total: int, shares: int): int
  {
    if fund == 0 || total == 0 then shares * 1000 / 1000000 else shares * fund / total
  }

  /** There are tokens in the fund exactly when there are shares. */
  predicate Backed(fund: int, total: int)
  {
    fund >= 0 && total >= 0 && (fund == 0 <==> total == 0)
  }

  /** A share is worth no less than before: `fund' / total' >= fund / total`. */
  predicate NotCheaper(fund: int, total: int, fund': int, total': int)
  {
    fund' * total >= fund * total'
  }

  lemma NotCheaperSelf(fund: int, total: int)
    ensures NotCheaper(fund, total, fund, total)
  {
  }

  lemma DepositKeeps(fund: int, total: int, tokens: int)
    requires Backed(fund, total) && tokens >= 0
    ensures var s := SharesFor(fund, total, tokens);
            s >= 0 && Backed(fund + tokens, total + s) && NotCheaper(fund, total, fund + tokens, total + s)
  {
    if fund > 0 {
      var s := SharesFor(fund, total, tokens);
      MulMono(0, total, tokens);
      DivBounds(tokens * total, fund);
      assert (fund + tokens) * total == fund * total + tokens * total;
      assert fund * (total + s) == fund * total + s * fund;
    }
  }

  lemma WithdrawKeeps(fund: int, total: int, shares: int)
    requires Backed(fund, total) && 0 <= shares <= total
    ensures var t := TokensFor(fund, total, shares);
            0 <= t <= fund && Backed(fund - t, total - shares) && NotCheaper(fund, total, fund - t, total - shares)
  {
    if fund > 0 {
      var t := TokensFor(fund, total, shares);
      DivBounds(shares * fund, total);
      MulMono(0, shares, fund);
      MulMono(shares, total, fund);
      assert t * total <= shares * fund;
      assert (fund - t) * total == fund * total - t * total;
      assert fund * (total - shares) == fund * total - shares * fund;
      PartAtMost(fund, shares, total);
      if shares == total {
        DivUnique(shares * fund, total, fund);
      } else if t == fund {
        MulMono(shares + 1, total, fund);
      }
    }
  }

  /** Depositing tokens and withdrawing the shares received gains nothing. */
  lemma DepositThenWithdraw(fund: int, total: int, tokens: int)
    requires Backed(fund, total) && tokens >= 0
    ensures var s := SharesFor(fund, total, tokens);
            TokensFor(fund + tokens, total + s, s) <= tokens
  {
    var s := SharesFor(fund, total, tokens);
    DepositKeeps(fund, total, tokens);
    if fund == 0 {
      if tokens > 0 {
        DivUnique(s * tokens, s, tokens);
      }
    } else {
      DivBounds(tokens * total, fund);
      DivBounds(s * (fund + tokens), total + s);
      var t := TokensFor(fund + tokens, total + s, s);
      assert s * (fund + tokens) == s * fund + s * tokens;
      assert tokens * (total + s) == tokens * total + tokens * s;
      if t > tokens {
        MulMono(tokens + 1, t, total + s);
      }
    }
  }

  /** Nor does withdrawing some of the shares and depositing the tokens received. */
  lemma WithdrawThenDeposit(fund: int, total: int, shares: int)
    requires Backed(fund, total) && 0 <= shares < total
    ensures var t := TokensFor(fund, total, shares);
            SharesFor(fund - t, total - shares, t) <= shares
  {
    var t := TokensFor(fund, total, shares);
    WithdrawKeeps(fund, total, shares);
    DivBounds(shares * fund, total);
    DivBounds(t * (total - shares), fund - t);
    var s := SharesFor(fund - t, total - shares, t);
    assert t * (total - shares) == t * total - t * shares;
    assert shares * (fund - t) == shares * fund - shares * t;
    if s > shares {
      MulMono(shares + 1, s, fund - t);
    }
  }

  /** Conversions one after the other keep the value too; withdrawing everything empties the fund. */
  lemma NotCheaperThen(f: int, v: int, f': int, v': int, f'': int, v'': int)
    requires Backed(f, v) && Backed(f', v') && Backed(f'', v'') && (v' == 0 ==> v'' == 0 || v == 0)
    requires NotCheaper(f, v, f', v') && NotCheaper(f', v', f'', v'')
    ensures NotCheaper(f, v, f'', v'')
  {
    if v' > 0 {
      // f'' * v' * v >= f' * v'' * v >= f * v' * v''
      MulMono(f' * v'', f'' * v', v);
      MulMono(f * v', f' * v, v'');
      assert f' * v'' * v == f' * v * v'' && f'' * v' * v == f'' * v * v' && f * v' * v'' == f * v'' * v';
      if f'' * v < f * v'' {
        MulMono(f'' * v + 1, f * v'', v');
      }
    }
  }

  /** When a share is worth no less, the same tokens buy no more of them. */
  lemma DearerBuys(f: int, v: int, f': int, v': int, tokens: int)
    requires f > 0 && v > 0 && f' > 0 && v' > 0 && NotCheaper(f, v, f', v') && tokens >= 0
    ensures SharesFor(f', v', tokens) <= SharesFor(f, v, tokens)
  {
    var q := SharesFor(f', v', tokens);
    DivBounds(tokens * v', f');
    Commute(f, v');
    Commute(f', v);
    CrossMore(q, f', tokens, v', f, v);
    DivAtLeastIf(tokens * v, f, q);
  }

  lemma Commute(a: int, b: int)
    ensures a * b == b * a
  {
  }

  /** Two purchases at one price get no more than one of both amounts. */
  lemma BuyingTogether(f: int, v: int, a: int, b: int)
    requires Backed(f, v) && a >= 0 && b >= 0
    ensures SharesFor(f, v, a) + SharesFor(f, v, b) <= SharesFor(f, v, a + b)
  {
    if f > 0 {
      DivBounds(a * v, f);
      DivBounds(b * v, f);
      DivBounds((a + b) * v, f);
      var s, r := a * v / f + b * v / f, (a + b) * v / f;
      assert (a + b) * v == a * v + b * v && s * f == a * v / f * f + b * v / f * f;
      if s > r {
        MulMono(r + 1, s, f);
      }
    }
  }

  /** The first deposit sets the price at which nothing is vested. */
  lemma FirstPrice(tokens: int, more: int)
    requires tokens > 0 && more >= 0
    ensures var s := SharesFor(0, 0, tokens); SharesFor(tokens, s, more) == SharesFor(0, 0, more)
  {
    var s := SharesFor(0, 0, tokens);
    assert s == tokens * 1000 && more * s == more * 1000 * tokens;
    DivUnique(more * s, tokens, more * 1000);
    assert (more * 1000 + 1) * tokens == more * 1000 * tokens + tokens;
  }

  /** When a share is worth no less, the same shares are paid no less. */
  lemma DearerPays(f: int, v: int, f': int, v': int, shares: int)
    requires Backed(f, v) && Backed(f', v') && NotCheaper(f, v, f', v') && 0 <= shares <= v' <= v
    ensures TokensFor(f, v, shares) <= TokensFor(f', v', shares)
  {
    if v' == 0 {
      DivUnique(0, 1000000, 0);
      if v > 0 {
        DivUnique(0, v, 0);
      }
    } else {
      var q := TokensFor(f, v, shares);
      DivBounds(shares * f, v);
      CrossMore(q, v, shares, f, v', f');
      DivAtLeastIf(shares * f', v', q);
    }
  }

  lemma RisingValue(f: int, v: int, f': int, v': int, f'': int, v'': int)
    requires Backed(f, v) && Backed(f', v') && Backed(f'', v'') && v <= v'
    requires NotCheaper(f, v, f', v') && NotCheaper(f', v', f'', v'')
    ensures NotCheaper(f, v, f'', v'')
  {
    NotCheaperThen(f, v, f', v', f'', v'');
  }

  lemma FallingValue(f: int, v: int, f': int, v': int, f'': int, v'': int)
    requires Backed(f, v) && Backed(f', v') && Backed(f'', v'') && v'' <= v'
    requires NotCheaper(f, v, f', v') && NotCheaper(f', v', f'', v'')
    ensures NotCheaper(f, v, f'', v'')
  {
    NotCheaperThen(f, v, f', v', f'', v'');
  }
}
