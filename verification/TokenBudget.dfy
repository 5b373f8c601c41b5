/** Token limits of a build: `check_max_num_tokens` and the growth for speculative decoding. */
module TokenBudget {
  import opened Options
  import opened Arith

  datatype Limits = Limits(
    batch: nat, inputLen: nat, seqLen: nat, beam: nat, removePadding: bool, fmha: bool, block: nat, profiles: bool)

  datatype Tokens = Tokens(max: Option<nat>, opt: Option<nat>)

  function Min(a: nat, b: nat): nat { if a <= b then a else b }
  function Max(a: nat, b: nat): nat { if a <= b then b else a }

  function Whole(l: Limits): nat {
    l.batch * l.seqLen
  }

  /** The least limit that works: a whole prompt, or one block when prompts can be chunked. */
  function Floor(l: Limits): nat {
    if l.fmha then l.block else l.inputLen
  }

  /** The requested limit, or everything, clamped between the floor and everything; the floor wins. */
  function MaxTokens(l: Limits, max: Option<nat>): nat {
    Max(Floor(l), Min(if max.Some? then max.value else Whole(l), Whole(l)))
  }

  /** The tuning point: as asked, or one token per sequence, never above the limit. */
  function OptTokens(l: Limits, t: Tokens): Option<nat> {
    match t.opt
    case Some(o) => Some(Min(o, MaxTokens(l, t.max)))
    case None =>
      if l.profiles then None
      else Some(Min(Min(l.batch * l.beam, if t.max.Some? then t.max.value else Whole(l)), MaxTokens(l, t.max)))
  }

  function Normalised(l: Limits, t: Tokens): Tokens {
    if l.removePadding then Tokens(Some(MaxTokens(l, t.max)), OptTokens(l, t))
    else if t.max.Some? || t.opt.Some? then Tokens(Some(Whole(l)), t.opt)
    else t
  }

  /**
   The limit with padding removed: a request between the floor (a whole prompt, or one block when prompts
   can be chunked) and batch times sequence length is returned as it is; one below the floor gives the
   floor; one above, or none, gives the larger of the two bounds.
   */
  predicate LimitHonoured(l: Limits, t: Tokens, r: Tokens) {
    var floor, whole := if l.fmha then l.block else l.inputLen, l.batch * l.seqLen;
    r.max.Some? &&
    if t.max.Some? && floor <= t.max.value <= whole then r.max == t.max
    else if t.max.Some? && t.max.value < floor then r.max == Some(floor)
    else r.max.value >= floor && r.max.value >= whole && (r.max.value == floor || r.max.value == whole)
  }

  /**
   The tuning point with padding removed: a requested one that is not above the limit is kept, one above
   it gives the limit; with none and several profiles there is none, with a single profile it is the
   least of batch times beam, the request (or batch times sequence length) and the limit.
   */
  predicate TuningHonoured(l: Limits, t: Tokens, r: Tokens)
    requires r.max.Some?
  {
    var asked := match t.max case Some(max) => max case None => l.batch * l.seqLen;
    match t.opt
    case Some(opt) => r.opt == if opt <= r.max.value then Some(opt) else r.max
    case None =>
      if l.profiles then r.opt == None
      else
        r.opt.Some? && r.opt.value <= l.batch * l.beam && r.opt.value <= asked && r.opt.value <= r.max.value &&
        (r.opt.value == l.batch * l.beam || r.opt.value == asked || r.opt == r.max)
  }

  lemma NormalisedHonours(l: Limits, t: Tokens)
    ensures l.removePadding ==> LimitHonoured(l, t, Normalised(l, t)) && TuningHonoured(l, t, Normalised(l, t))
    ensures !l.removePadding ==>
              Normalised(l, t).opt == t.opt &&
              Normalised(l, t).max == if t.max.None? && t.opt.None? then None else Some(l.batch * l.seqLen)
  {
    hide Whole;
    WholeIs(l);
    var beams := l.batch * l.beam;
    assert beams >= 0;
  }

  lemma WholeIs(l: Limits)
    ensures Whole(l) == l.batch * l.seqLen
  {
  }

  /** `check_max_num_tokens`, branch by branch. */
  method CheckMaxNumTokens(l: Limits, t: Tokens) returns (r: Tokens)
    ensures l.removePadding ==> LimitHonoured(l, t, r) && TuningHonoured(l, t, r)
    ensures !l.removePadding ==>
              r.opt == t.opt && r.max == if t.max.None? && t.opt.None? then None else Some(l.batch * l.seqLen)
    ensures r == Normalised(l, t)
  {
    hide LimitHonoured, TuningHonoured;
    NormalisedHonours(l, t);
    var max, opt := t.max, t.opt;
    if !l.removePadding {
      if max.Some? || opt.Some? {
        max := Some(l.batch * l.seqLen);
      }
      return Tokens(max, opt);
    }
    if max.None? {
      max := Some(l.seqLen * l.batch);
    }
    if opt.None? && !l.profiles {
      opt := Some(Min(l.batch * l.beam, max.value));
    }
    if max.value > l.seqLen * l.batch {
      max := Some(l.seqLen * l.batch);
    }
    if max.value < l.inputLen && !l.fmha {
      max := Some(l.inputLen);
    } else if max.value < l.block && l.fmha {
      max := Some(l.block);
    }
    if opt.Some? && opt.value > max.value {
      opt := max;
    }
    r := Tokens(max, opt);
  }

  /** Normalising twice changes nothing more. */
  lemma NormalisedIsStable(l: Limits, t: Tokens)
    ensures Normalised(l, Normalised(l, t)) == Normalised(l, t)
  {
    if l.removePadding {
      var once := Normalised(l, t);
      assert MaxTokens(l, once.max) == once.max.value;
    }
  }

  /**
   With padding removed the limit covers the floor and the tuning point never exceeds the limit; the
   limit stays within batch times sequence length exactly when the floor does.
   */
  lemma NormalisedBounds(l: Limits, t: Tokens)
    requires l.removePadding
    ensures var floor, whole := if l.fmha then l.block else l.inputLen, l.batch * l.seqLen;
            match Normalised(l, t).max
            case None => false
            case Some(max) =>
              floor <= max && (max <= whole <==> floor <= whole) &&
              match Normalised(l, t).opt
              case None => l.profiles && t.opt.None?
              case Some(opt) => opt <= max
  {
    hide Whole;
    WholeIs(l);
  }

  /** Every sequence with its draft tokens and one more. */
  function DraftTokens(batch: nat, draftLen: nat): nat {
    batch * (draftLen + 1)
  }

  function RedrafterLength(beams: (nat, nat)): nat {
    beams.0 * beams.1
  }

  lemma DraftTokensIs(batch: nat, draftLen: nat)
    ensures DraftTokens(batch, draftLen) == batch * (draftLen + 1)
  {
  }

  lemma RedrafterLengthIs(beams: (nat, nat))
    ensures RedrafterLength(beams) == beams.0 * beams.1
  {
  }

  predicate LargerOf(x: int, a: int, b: int) {
    a <= x && b <= x && (x == a || x == b)
  }

  datatype Mode = Off | Eagle | Drafting

  class BuildConfig {
    var limits: Limits
    var tokens: Tokens
    var draftLen: nat

    constructor (limits: Limits, tokens: Tokens, draftLen: nat)
      ensures this.limits == limits && this.tokens == tokens && this.draftLen == draftLen
    {
      this.limits, this.tokens, this.draftLen := limits, tokens, draftLen;
    }

    /**
     The tail of `_init_max_seq_len`: prompts are clipped to the sequence length, so with at least one
     sequence and no chunking the limit ends within batch times sequence length.
     */
    method SettleTokens()
      modifies this
      ensures limits == old(limits).(inputLen := Min(old(limits.inputLen), old(limits.seqLen)))
      ensures limits.inputLen <= old(limits.seqLen) && (limits.inputLen == old(limits.inputLen) || limits.inputLen == limits.seqLen)
      ensures tokens == Normalised(limits, old(tokens)) && draftLen == old(draftLen)
      ensures limits.removePadding ==> LimitHonoured(limits, old(tokens), tokens) && TuningHonoured(limits, old(tokens), tokens)
      ensures limits.removePadding && !limits.fmha && limits.batch > 0 ==>
                tokens.max.Some? && limits.inputLen <= tokens.max.value <= limits.batch * limits.seqLen
    {
      if limits.inputLen > limits.seqLen {
        limits := limits.(inputLen := limits.seqLen);
      }
      tokens := CheckMaxNumTokens(limits, tokens);
      MulMonotone(1, if limits.batch > 0 then limits.batch else 1, limits.seqLen);
    }

    /**
     The speculative-decoding adjustments of `build`: `modelDraft` is the model's own draft length,
     `redrafter` its beams and length per beam. `ok` is false when the call raises.
     */
    method GrowForSpeculation(mode: Mode, modelDraft: Option<nat>, redrafter: Option<(nat, nat)>, eagleLayers: Option<nat>)
      returns (ok: bool)
      modifies this
      ensures ok <==> (mode == Off && redrafter.None?) ||
                      (old(tokens).max.Some? && (mode == Eagle && redrafter.None? ==> eagleLayers.Some?))
      ensures draftLen == (if redrafter.Some? then RedrafterLength(redrafter.value)
                           else if modelDraft.Some? && old(draftLen) == 0 then modelDraft.value else old(draftLen))
      ensures ok ==> old(limits.seqLen) <= limits.seqLen && limits == old(limits).(seqLen := limits.seqLen)
      ensures ok ==> tokens.opt == old(tokens).opt
      ensures redrafter.Some? ==> draftLen == redrafter.value.0 * redrafter.value.1
      ensures ok && (mode != Off || redrafter.Some?) ==>
                tokens.max == Some(Max(old(tokens).max.value, DraftTokens(limits.batch, draftLen))) &&
                LargerOf(tokens.max.value, old(tokens).max.value, limits.batch * (draftLen + 1)) &&
                limits.seqLen ==
                  old(limits.seqLen) + draftLen + (if redrafter.None? && mode == Eagle then eagleLayers.value else 0)
      ensures ok && !(mode != Off || redrafter.Some?) ==> tokens == old(tokens) && limits == old(limits)
    {
      hide DraftTokens, RedrafterLength;
      if redrafter.Some? {
        RedrafterLengthIs(redrafter.value);
      }
      var m := mode;
      if modelDraft.Some? && draftLen == 0 {
        draftLen := modelDraft.value;
      }
      if redrafter.Some? {
        draftLen := RedrafterLength(redrafter.value);
        m := Drafting;
      }
      if m == Off {
        return true;
      }
      limits := limits.(seqLen := limits.seqLen + draftLen);
      if m == Eagle {
        if eagleLayers.None? {
          return false;
        }
        limits := limits.(seqLen := limits.seqLen + eagleLayers.value);
      }
      if tokens.max.None? {
        return false;
      }
      var n := DraftTokens(limits.batch, draftLen);
      DraftTokensIs(limits.batch, draftLen);
      if tokens.max.value < n {
        tokens := tokens.(max := Some(n));
      }
      return true;
    }
  }

  /** Growth keeps the tuning point below the limit, and the limit within batch times sequence length if it was. */
  lemma GrowthKeepsBounds(l: Limits, max: nat, opt: nat, draftLen: nat, seqLen: nat)
    requires l.seqLen > 0 && seqLen >= l.seqLen + draftLen && opt <= max
    ensures var grown := Max(max, DraftTokens(l.batch, draftLen));
            opt <= grown && l.batch * (draftLen + 1) <= grown &&
            (max <= l.batch * l.seqLen ==> grown <= l.batch * seqLen)
  {
    MulMonotone(draftLen + 1, seqLen, l.batch);
    MulMonotone(l.seqLen, seqLen, l.batch);
  }
}
