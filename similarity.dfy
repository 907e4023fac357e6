/** The verdict `analyze_context` (mistral/views.py:183-190) draws from a
    similarity score.  The score itself, the cosine similarity of two
    sentence embeddings, is an input here. */
module Similarity {

  const SimilarityThreshold: real := 0.8
  const Similar := "The texts are similar."
  const NotSimilar := "The texts are not similar."

  function Verdict(score: real): string {
    if score >= SimilarityThreshold then Similar else NotSimilar
  }

  /** The texts are called similar exactly when the score reaches 0.8, and
      a higher score never turns "similar" into "not similar". */
  lemma VerdictThreshold(score: real, higher: real)
    requires score <= higher
    ensures Verdict(score) == Similar <==> score >= 0.8
    ensures Verdict(score) == NotSimilar <==> score < 0.8
    ensures Verdict(score) == Similar ==> Verdict(higher) == Similar
  {
  }
}
