/** The music container: one sequence of sound indices per channel. */
module Musics {
  import opened Settings
  import opened Outcomes

  datatype Music = Music(sequences: seq<seq<U32>>)

  /** The fixed-size array of the source: exactly one sequence per channel. */
  ghost predicate Valid(m: Music) {
    |m.sequences| == CHANNEL_COUNT
  }

  /** `Music::new`: every channel empty. */
  function New(): (m: Music)
    ensures Valid(m)
    ensures forall i :: 0 <= i < CHANNEL_COUNT ==> |m.sequences[i]| == 0
  {
    Music(seq(CHANNEL_COUNT, _ => []))
  }

  /** The loop of `Music::set` from channel `i` on: channel `i` becomes a copy
      of `seqs[i]`, which panics once `i` runs past the end of `seqs`, leaving
      the channels before `i` already replaced. */
  function SetFrom(m: Music, seqs: seq<seq<U32>>, i: nat): (r: Outcome<Music>)
    requires Valid(m)
    requires i <= CHANNEL_COUNT
    ensures Valid(r.After())
    ensures r.Done? <==> i == CHANNEL_COUNT || CHANNEL_COUNT <= |seqs|
    ensures r.Panicked? ==> r.reason == IndexOutOfBounds
    ensures forall c :: 0 <= c < CHANNEL_COUNT ==>
      r.After().sequences[c] == if i <= c < |seqs| then seqs[c] else m.sequences[c]
    decreases CHANNEL_COUNT - i
  {
    if i == CHANNEL_COUNT then Done(m)
    else if i >= |seqs| then Panicked(IndexOutOfBounds, m)
    else SetFrom(m.(sequences := m.sequences[i := seqs[i]]), seqs, i + 1)
  }

  /** `Music::set`: channel i becomes `seqs[i]` for every channel; further
      input sequences are ignored. Too few input sequences panic after the
      channels that do have one were replaced. */
  function Set(m: Music, seqs: seq<seq<U32>>): (r: Outcome<Music>)
    requires Valid(m)
    ensures Valid(r.After())
    ensures r.Done? <==> CHANNEL_COUNT <= |seqs|
    ensures r.Panicked? ==> r.reason == IndexOutOfBounds
    ensures forall c :: 0 <= c < CHANNEL_COUNT ==>
      r.After().sequences[c] == if c < |seqs| then seqs[c] else m.sequences[c]
  {
    SetFrom(m, seqs, 0)
  }

  /** With enough input, the music holds exactly the first CHANNEL_COUNT
      input sequences, whatever it held before. */
  lemma SetReplaces(m: Music, seqs: seq<seq<U32>>)
    requires Valid(m)
    requires CHANNEL_COUNT <= |seqs|
    ensures Set(m, seqs) == Done(Music(seqs[..CHANNEL_COUNT]))
  {
    var r := Set(m, seqs).value;
    assert forall c :: 0 <= c < CHANNEL_COUNT ==> r.sequences[c] == seqs[..CHANNEL_COUNT][c];
    assert r.sequences == seqs[..CHANNEL_COUNT];
  }

  /** `set` replaces rather than appends: setting the same input twice is the
      same as setting it once. */
  lemma SetIdempotent(m: Music, seqs: seq<seq<U32>>)
    requires Valid(m)
    requires CHANNEL_COUNT <= |seqs|
    ensures Set(m, seqs).Done?
    ensures Set(Set(m, seqs).value, seqs) == Set(m, seqs)
  {
    SetReplaces(m, seqs);
    SetReplaces(Set(m, seqs).value, seqs);
  }

  /** Input sequences beyond the last channel make no difference. */
  lemma SetIgnoresExtra(m: Music, seqs: seq<seq<U32>>, extra: seq<seq<U32>>)
    requires Valid(m)
    requires CHANNEL_COUNT <= |seqs|
    ensures Set(m, seqs + extra) == Set(m, seqs)
  {
    SetReplaces(m, seqs);
    SetReplaces(m, seqs + extra);
    assert (seqs + extra)[..CHANNEL_COUNT] == seqs[..CHANNEL_COUNT];
  }

  /** Setting [[0, 1, 2], [1, 2, 3], [2, 3, 4], [3, 4, 5]] on a new music gives
      channel i the sequence [i, i + 1, i + 2]. */
  lemma SetScenario()
    ensures Set(New(), [[0, 1, 2], [1, 2, 3], [2, 3, 4], [3, 4, 5]]).Done?
    ensures forall i :: 0 <= i < CHANNEL_COUNT ==>
      Set(New(), [[0, 1, 2], [1, 2, 3], [2, 3, 4], [3, 4, 5]]).value.sequences[i] == [i, i + 1, i + 2]
  {
  }
}
