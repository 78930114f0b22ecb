/** Sizes of finite sets. */
module Counting {

  function One(b: bool): int {
    if b then 1 else 0
  }

  lemma SizeWith<T>(ts: set<T>, t: T)
    ensures |ts + {t}| == |ts| + One(t !in ts)
  {
    if t in ts {
      assert ts + {t} == ts;
    }
  }

  lemma SizeWithout<T>(ts: set<T>, t: T)
    ensures |ts - {t}| == |ts| - One(t in ts)
  {
    if t !in ts {
      assert ts - {t} == ts;
    }
  }
}
