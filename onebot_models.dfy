/** `MinimalEvent` of the OneBot adapter: the fields common to every event of
    the OneBot 11 standard, and the classification by `post_type`. */
module OneBotModels {

  /** Rust's `i64`. */
  newtype i64 = x: int | -0x8000_0000_0000_0000 <= x < 0x8000_0000_0000_0000

  datatype MinimalEvent = MinimalEvent(time: i64, selfId: i64, postType: string)

  /** `MinimalEvent::is_message`: a message is none of the other kinds. */
  predicate IsMessage(e: MinimalEvent): (r: bool)
    ensures r ==> e.postType != "notice" && e.postType != "request" && e.postType != "meta_event"
  {
    e.postType == "message"
  }

  /** `MinimalEvent::is_notice`: a notice is none of the other kinds. */
  predicate IsNotice(e: MinimalEvent): (r: bool)
    ensures r ==> e.postType != "message" && e.postType != "request" && e.postType != "meta_event"
  {
    e.postType == "notice"
  }

  /** `MinimalEvent::is_request`: a request is none of the other kinds. */
  predicate IsRequest(e: MinimalEvent): (r: bool)
    ensures r ==> e.postType != "message" && e.postType != "notice" && e.postType != "meta_event"
  {
    e.postType == "request"
  }

  /** `MinimalEvent::is_meta_event`: a meta event is none of the other kinds. */
  predicate IsMetaEvent(e: MinimalEvent): (r: bool)
    ensures r ==> e.postType != "message" && e.postType != "notice" && e.postType != "request"
  {
    e.postType == "meta_event"
  }

  /** How many of the four classifiers hold. */
  function Classifications(e: MinimalEvent): nat
  {
    (if IsMessage(e) then 1 else 0) + (if IsNotice(e) then 1 else 0)
    + (if IsRequest(e) then 1 else 0) + (if IsMetaEvent(e) then 1 else 0)
  }

  /** At most one classifier holds, and exactly one does when `post_type` is
      one of the four kinds of the standard. */
  lemma AtMostOneKind(e: MinimalEvent)
    ensures Classifications(e) <= 1
    ensures Classifications(e) == 1 <==> e.postType in {"message", "notice", "request", "meta_event"}
  {
    assert "message" != "notice" by { assert |"message"| != |"notice"|; }
    assert "message" != "request" by { assert "message"[0] != "request"[0]; }
    assert "message" != "meta_event" by { assert |"message"| != |"meta_event"|; }
    assert "notice" != "request" by { assert |"notice"| != |"request"|; }
    assert "notice" != "meta_event" by { assert |"notice"| != |"meta_event"|; }
    assert "request" != "meta_event" by { assert |"request"| != |"meta_event"|; }
  }

  /** The classifiers read only `post_type`: `time` and `self_id` do not
      matter. */
  lemma KindIgnoresTimeAndSelf(e: MinimalEvent, time: i64, selfId: i64)
    ensures var e' := MinimalEvent(time, selfId, e.postType);
            && IsMessage(e') == IsMessage(e) && IsNotice(e') == IsNotice(e)
            && IsRequest(e') == IsRequest(e) && IsMetaEvent(e') == IsMetaEvent(e)
  {
  }
}
